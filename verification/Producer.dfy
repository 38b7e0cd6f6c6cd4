/** The broker topology that `Producer::connect` declares, and where messages go in it. */
module Producer {
  import opened Text
  import opened Deliveries

  datatype Kind = Fanout | Direct

  datatype QueueArgs = Plain | DeadLetterTo(exchange: string, key: string)

  datatype Binding = Binding(exchange: string, queue: string, key: string)

  datatype Topology = Topology(
    exchanges: map<string, Kind>, queues: map<string, QueueArgs>, bindings: set<Binding>)

  const FRESH := Topology(map[], map[], {})

  // ----- declarations: repeating one is fine, changing one is an error -----

  function DeclareExchange(t: Topology, name: string, kind: Kind): Option<Topology> {
    if name in t.exchanges && t.exchanges[name] != kind then None
    else Some(t.(exchanges := t.exchanges[name := kind]))
  }

  function DeclareQueue(t: Topology, name: string, args: QueueArgs): Option<Topology> {
    if name in t.queues && t.queues[name] != args then None
    else Some(t.(queues := t.queues[name := args]))
  }

  function Bind(t: Topology, queue: string, exchange: string, key: string): Option<Topology> {
    if queue !in t.queues || exchange !in t.exchanges then None
    else Some(t.(bindings := t.bindings + {Binding(exchange, queue, key)}))
  }

  /** A queue and its dead-letter queue. */
  datatype Pair = Pair(queue: string, dlq: string)

  /** The body of the loop of `connect`. */
  function DeclarePair(t: Topology, exchange: string, dlx: string, p: Pair): Option<Topology> {
    match DeclareQueue(t, p.queue, DeadLetterTo(dlx, p.dlq))
    case None => None
    case Some(t1) =>
      match Bind(t1, p.queue, exchange, "")
      case None => None
      case Some(t2) =>
        match DeclareQueue(t2, p.dlq, Plain)
        case None => None
        case Some(t3) => Bind(t3, p.dlq, dlx, p.dlq)
  }

  function DeclarePairs(t: Topology, exchange: string, dlx: string, pairs: seq<Pair>): Option<Topology> {
    if pairs == [] then Some(t)
    else
      match DeclarePairs(t, exchange, dlx, pairs[..|pairs| - 1])
      case None => None
      case Some(u) => DeclarePair(u, exchange, dlx, pairs[|pairs| - 1])
  }

  function DeclareExchanges(t: Topology, exchange: string, dlx: string): Option<Topology> {
    match DeclareExchange(t, exchange, Fanout)
    case None => None
    case Some(u) => DeclareExchange(u, dlx, Direct)
  }

  function Connected(t: Topology, exchange: string, dlx: string, pairs: seq<Pair>): Option<Topology> {
    match DeclareExchanges(t, exchange, dlx)
    case None => None
    case Some(u) => DeclarePairs(u, exchange, dlx, pairs)
  }

  // ----- routing -----

  /** The queues bound to a fanout exchange; the routing key plays no part. */
  function FanoutTargets(t: Topology, exchange: string): set<string> {
    set b | b in t.bindings && b.exchange == exchange :: b.queue
  }

  /** Where a rejected message of a queue goes: to the queues bound to its dead-letter exchange
      under its dead-letter key. */
  function DeadLetterTargets(t: Topology, queue: string): set<string> {
    if queue in t.queues && t.queues[queue].DeadLetterTo? then
      var args := t.queues[queue];
      set b | b in t.bindings && b.exchange == args.exchange && b.key == args.key :: b.queue
    else {}
  }

  // ----- when connect succeeds, and what it leaves -----

  /** The configuration declares nothing twice in two ways: the exchanges differ, a queue has one
      dead-letter queue, and no queue is a dead-letter queue. */
  ghost predicate Compatible(exchange: string, dlx: string, pairs: seq<Pair>) {
    exchange != dlx && PairsCompatible(pairs)
  }

  ghost predicate PairsCompatible(pairs: seq<Pair>) {
    && (forall p, q :: p in pairs && q in pairs && p.queue == q.queue ==> p.dlq == q.dlq)
    && (forall p, q :: p in pairs && q in pairs ==> p.queue != q.dlq)
  }

  function MainQueues(pairs: seq<Pair>): set<string> {
    set p | p in pairs :: p.queue
  }

  function DeadLetterQueues(pairs: seq<Pair>): set<string> {
    set p | p in pairs :: p.dlq
  }

  function BindingsOf(exchange: string, dlx: string, pairs: seq<Pair>): set<Binding> {
    (set p | p in pairs :: Binding(exchange, p.queue, "")) + (set p | p in pairs :: Binding(dlx, p.dlq, p.dlq))
  }

  /** What the loop has declared after some pairs. */
  ghost predicate Declared(t: Topology, exchange: string, dlx: string, pairs: seq<Pair>) {
    && t.exchanges == map[exchange := Fanout, dlx := Direct]
    && t.queues.Keys == MainQueues(pairs) + DeadLetterQueues(pairs)
    && (forall p :: p in pairs ==> t.queues[p.queue] == DeadLetterTo(dlx, p.dlq) && t.queues[p.dlq] == Plain)
    && t.bindings == BindingsOf(exchange, dlx, pairs)
  }

  lemma MembersOfAppend(pairs: seq<Pair>, p: Pair)
    ensures forall q :: q in pairs + [p] <==> q in pairs || q == p
    ensures MainQueues(pairs + [p]) == MainQueues(pairs) + {p.queue}
    ensures DeadLetterQueues(pairs + [p]) == DeadLetterQueues(pairs) + {p.dlq}
  {
    assert forall q :: q in pairs + [p] <==> q in pairs || q == p;
  }

  lemma BindingsOfAppend(exchange: string, dlx: string, pairs: seq<Pair>, p: Pair)
    ensures BindingsOf(exchange, dlx, pairs + [p])
            == BindingsOf(exchange, dlx, pairs) + {Binding(exchange, p.queue, ""), Binding(dlx, p.dlq, p.dlq)}
  {
    MembersOfAppend(pairs, p);
  }

  /** The names of a pair are free, or declared with the arguments the pair gives them. */
  predicate Fits(t: Topology, dlx: string, p: Pair) {
    && (p.queue in t.queues ==> t.queues[p.queue] == DeadLetterTo(dlx, p.dlq))
    && p.dlq != p.queue
    && (p.dlq in t.queues ==> t.queues[p.dlq] == Plain)
  }

  function WithPair(t: Topology, exchange: string, dlx: string, p: Pair): Topology {
    Topology(
      t.exchanges,
      t.queues[p.queue := DeadLetterTo(dlx, p.dlq)][p.dlq := Plain],
      t.bindings + {Binding(exchange, p.queue, ""), Binding(dlx, p.dlq, p.dlq)})
  }

  lemma DeclarePairIff(t: Topology, exchange: string, dlx: string, p: Pair)
    requires exchange in t.exchanges && dlx in t.exchanges
    ensures DeclarePair(t, exchange, dlx, p)
            == if Fits(t, dlx, p) then Some(WithPair(t, exchange, dlx, p)) else None
  {
    var one, two := Binding(exchange, p.queue, ""), Binding(dlx, p.dlq, p.dlq);
    assert t.bindings + {one} + {two} == t.bindings + {one, two};
  }

  lemma DeclarePairStep(t: Topology, exchange: string, dlx: string, pairs: seq<Pair>, p: Pair)
    requires exchange != dlx && Declared(t, exchange, dlx, pairs) && PairsCompatible(pairs)
    ensures var u := DeclarePair(t, exchange, dlx, p);
            && (u.Some? <==> PairsCompatible(pairs + [p]))
            && (u.Some? ==> Declared(u.value, exchange, dlx, pairs + [p]))
  {
    DeclarePairIff(t, exchange, dlx, p);
    PairFits(t, exchange, dlx, pairs, p);
    if Fits(t, dlx, p) {
      PairDeclared(t, exchange, dlx, pairs, p);
    }
  }

  /** A pair can be declared exactly when it is compatible with the pairs before it. */
  lemma PairFits(t: Topology, exchange: string, dlx: string, pairs: seq<Pair>, p: Pair)
    requires Declared(t, exchange, dlx, pairs) && PairsCompatible(pairs)
    ensures Fits(t, dlx, p) <==> PairsCompatible(pairs + [p])
  {
    if Fits(t, dlx, p) {
      forall q | q in pairs
        ensures (q.queue == p.queue ==> q.dlq == p.dlq) && q.queue != p.dlq && p.queue != q.dlq
      {
        assert t.queues[q.queue] == DeadLetterTo(dlx, q.dlq) && t.queues[q.dlq] == Plain;
      }
    }
    if PairsCompatible(pairs + [p]) {
      CompatibleFits(t, exchange, dlx, pairs, p);
    }
  }

  lemma CompatibleFits(t: Topology, exchange: string, dlx: string, pairs: seq<Pair>, p: Pair)
    requires Declared(t, exchange, dlx, pairs) && PairsCompatible(pairs + [p])
    ensures Fits(t, dlx, p)
  {
    assert p in pairs + [p];
    assert forall q :: q in pairs ==> q in pairs + [p];
    if p.queue in t.queues {
      assert p.queue !in DeadLetterQueues(pairs);
      var q :| q in pairs && q.queue == p.queue;
    }
    if p.dlq in t.queues {
      assert p.dlq !in MainQueues(pairs);
      var q :| q in pairs && q.dlq == p.dlq;
    }
  }

  lemma PairDeclared(t: Topology, exchange: string, dlx: string, pairs: seq<Pair>, p: Pair)
    requires Declared(t, exchange, dlx, pairs) && PairsCompatible(pairs + [p])
    ensures Declared(WithPair(t, exchange, dlx, p), exchange, dlx, pairs + [p])
  {
    var u := WithPair(t, exchange, dlx, p);
    MembersOfAppend(pairs, p);
    BindingsOfAppend(exchange, dlx, pairs, p);
    forall q | q in pairs + [p]
      ensures u.queues[q.queue] == DeadLetterTo(dlx, q.dlq) && u.queues[q.dlq] == Plain
    {
      PairKept(t, exchange, dlx, pairs, p, q);
    }
  }

  lemma PairKept(t: Topology, exchange: string, dlx: string, pairs: seq<Pair>, p: Pair, q: Pair)
    requires Declared(t, exchange, dlx, pairs) && PairsCompatible(pairs + [p]) && q in pairs + [p]
    ensures var u := WithPair(t, exchange, dlx, p);
            && q.queue in u.queues && u.queues[q.queue] == DeadLetterTo(dlx, q.dlq)
            && q.dlq in u.queues && u.queues[q.dlq] == Plain
  {
    assert p in pairs + [p];
    assert q == p || q in pairs;
  }

  lemma {:induction false} PairsDeclared(t: Topology, exchange: string, dlx: string, pairs: seq<Pair>)
    requires exchange != dlx && Declared(t, exchange, dlx, [])
    ensures var u := DeclarePairs(t, exchange, dlx, pairs);
            && (u.Some? <==> PairsCompatible(pairs))
            && (u.Some? ==> Declared(u.value, exchange, dlx, pairs))
  {
    if pairs == [] {
    } else {
      var init, last := pairs[..|pairs| - 1], pairs[|pairs| - 1];
      assert pairs == init + [last];
      PairsDeclared(t, exchange, dlx, init);
      if PairsCompatible(init) {
        DeclarePairStep(DeclarePairs(t, exchange, dlx, init).value, exchange, dlx, init, last);
      } else {
        MembersOfAppend(init, last);
      }
    }
  }

  /** From a fresh broker `connect` succeeds exactly when the configuration is compatible. */
  lemma ConnectIff(exchange: string, dlx: string, pairs: seq<Pair>)
    ensures Connected(FRESH, exchange, dlx, pairs).Some? <==> Compatible(exchange, dlx, pairs)
    ensures Compatible(exchange, dlx, pairs) ==>
              Declared(Connected(FRESH, exchange, dlx, pairs).value, exchange, dlx, pairs)
  {
    if exchange != dlx {
      var u := DeclareExchanges(FRESH, exchange, dlx).value;
      assert Declared(u, exchange, dlx, []);
      PairsDeclared(u, exchange, dlx, pairs);
    }
  }

  /** In the topology that results, a published message goes to every main queue and to no other,
      and a message rejected from a main queue goes to its dead-letter queue and to no other. */
  lemma Routes(exchange: string, dlx: string, pairs: seq<Pair>, p: Pair)
    requires Connected(FRESH, exchange, dlx, pairs).Some? && p in pairs
    ensures var t := Connected(FRESH, exchange, dlx, pairs).value;
            && FanoutTargets(t, exchange) == MainQueues(pairs)
            && DeadLetterTargets(t, p.queue) == {p.dlq}
            && DeadLetterTargets(t, p.dlq) == {}
  {
    ConnectIff(exchange, dlx, pairs);
    var t := Connected(FRESH, exchange, dlx, pairs).value;
    FanoutOf(t, exchange, dlx, pairs);
    DeadLettersOf(t, exchange, dlx, pairs, p);
  }

  lemma FanoutOf(t: Topology, exchange: string, dlx: string, pairs: seq<Pair>)
    requires exchange != dlx && Declared(t, exchange, dlx, pairs)
    ensures FanoutTargets(t, exchange) == MainQueues(pairs)
  {
    forall q | q in MainQueues(pairs)
      ensures q in FanoutTargets(t, exchange)
    {
      assert Binding(exchange, q, "") in t.bindings;
    }
  }

  lemma DeadLettersOf(t: Topology, exchange: string, dlx: string, pairs: seq<Pair>, p: Pair)
    requires exchange != dlx && Declared(t, exchange, dlx, pairs) && p in pairs
    ensures DeadLetterTargets(t, p.queue) == {p.dlq}
    ensures DeadLetterTargets(t, p.dlq) == {}
  {
    assert Binding(dlx, p.dlq, p.dlq) in t.bindings;
  }

  // ----- connecting again -----

  lemma {:induction false} PairsAgain(t: Topology, exchange: string, dlx: string, pairs: seq<Pair>, n: nat)
    requires Declared(t, exchange, dlx, pairs) && PairsCompatible(pairs) && n <= |pairs|
    ensures DeclarePairs(t, exchange, dlx, pairs[..n]) == Some(t)
  {
    if n == 0 {
    } else {
      var p := pairs[n - 1];
      PairsAgain(t, exchange, dlx, pairs, n - 1);
      assert pairs[..n][..n - 1] == pairs[..n - 1];
      DeclarePairIff(t, exchange, dlx, p);
      PairIsThere(t, exchange, dlx, pairs, p);
    }
  }

  lemma PairIsThere(t: Topology, exchange: string, dlx: string, pairs: seq<Pair>, p: Pair)
    requires Declared(t, exchange, dlx, pairs) && PairsCompatible(pairs) && p in pairs
    ensures Fits(t, dlx, p) && WithPair(t, exchange, dlx, p) == t
  {
    assert t.queues[p.queue] == DeadLetterTo(dlx, p.dlq) && t.queues[p.dlq] == Plain;
    SetAgain(t.queues, p.queue, DeadLetterTo(dlx, p.dlq));
    SetAgain(t.queues, p.dlq, Plain);
    BindingsThere(exchange, dlx, pairs, p);
  }

  lemma SetAgain<K, V>(m: map<K, V>, k: K, v: V)
    requires k in m && m[k] == v
    ensures m[k := v] == m
  {
  }

  lemma BindingsThere(exchange: string, dlx: string, pairs: seq<Pair>, p: Pair)
    requires p in pairs
    ensures var bindings := BindingsOf(exchange, dlx, pairs);
            bindings + {Binding(exchange, p.queue, ""), Binding(dlx, p.dlq, p.dlq)} == bindings
  {
    assert Binding(exchange, p.queue, "") in BindingsOf(exchange, dlx, pairs);
    assert Binding(dlx, p.dlq, p.dlq) in BindingsOf(exchange, dlx, pairs);
  }

  /** Connecting again with the same configuration succeeds and changes nothing. */
  lemma Reconnect(exchange: string, dlx: string, pairs: seq<Pair>)
    requires Connected(FRESH, exchange, dlx, pairs).Some?
    ensures var t := Connected(FRESH, exchange, dlx, pairs).value;
            Connected(t, exchange, dlx, pairs) == Some(t)
  {
    ConnectIff(exchange, dlx, pairs);
    var t := Connected(FRESH, exchange, dlx, pairs).value;
    SetAgain(t.exchanges, exchange, Fanout);
    SetAgain(t.exchanges, dlx, Direct);
    PairsAgain(t, exchange, dlx, pairs, |pairs|);
    assert pairs[..|pairs|] == pairs;
  }

  /** Declared queues keep their arguments. */
  lemma {:induction false} QueuesKept(t: Topology, exchange: string, dlx: string, pairs: seq<Pair>, q: string)
    requires exchange in t.exchanges && dlx in t.exchanges
    requires q in t.queues && DeclarePairs(t, exchange, dlx, pairs).Some?
    ensures var u := DeclarePairs(t, exchange, dlx, pairs).value;
            q in u.queues && u.queues[q] == t.queues[q]
  {
    if pairs == [] {
    } else {
      var init, last := pairs[..|pairs| - 1], pairs[|pairs| - 1];
      ExchangesKept(t, exchange, dlx, init);
      QueuesKept(t, exchange, dlx, init, q);
      DeclarePairIff(DeclarePairs(t, exchange, dlx, init).value, exchange, dlx, last);
    }
  }

  lemma {:induction false} ChangedArguments(t: Topology, exchange: string, dlx: string, pairs: seq<Pair>, i: nat)
    requires exchange in t.exchanges && dlx in t.exchanges
    requires i < |pairs| && !Fits(t, dlx, pairs[i])
    ensures DeclarePairs(t, exchange, dlx, pairs) == None
  {
    var init, last := pairs[..|pairs| - 1], pairs[|pairs| - 1];
    if i < |pairs| - 1 {
      ChangedArguments(t, exchange, dlx, init, i);
    } else if DeclarePairs(t, exchange, dlx, init).Some? {
      var u := DeclarePairs(t, exchange, dlx, init).value;
      ExchangesKept(t, exchange, dlx, init);
      DeclarePairIff(u, exchange, dlx, last);
      if last.queue in t.queues {
        QueuesKept(t, exchange, dlx, init, last.queue);
      }
      if last.dlq in t.queues {
        QueuesKept(t, exchange, dlx, init, last.dlq);
      }
    }
  }

  lemma {:induction false} ExchangesKept(t: Topology, exchange: string, dlx: string, pairs: seq<Pair>)
    requires exchange in t.exchanges && dlx in t.exchanges && DeclarePairs(t, exchange, dlx, pairs).Some?
    ensures DeclarePairs(t, exchange, dlx, pairs).value.exchanges == t.exchanges
  {
    if pairs == [] {
    } else {
      ExchangesKept(t, exchange, dlx, pairs[..|pairs| - 1]);
      DeclarePairIff(DeclarePairs(t, exchange, dlx, pairs[..|pairs| - 1]).value, exchange, dlx, pairs[|pairs| - 1]);
    }
  }

  /** On any broker `connect` fails if a queue is already there with other arguments: a main queue
      without its dead letters, or a dead-letter queue with some. */
  lemma QueueOfOtherKind(t: Topology, exchange: string, dlx: string, pairs: seq<Pair>, p: Pair)
    requires p in pairs
    requires (p.queue in t.queues && t.queues[p.queue] != DeadLetterTo(dlx, p.dlq))
             || (p.dlq in t.queues && t.queues[p.dlq] != Plain)
    ensures Connected(t, exchange, dlx, pairs) == None
  {
    if DeclareExchanges(t, exchange, dlx).Some? {
      var u := DeclareExchanges(t, exchange, dlx).value;
      var i :| 0 <= i < |pairs| && pairs[i] == p;
      ChangedArguments(u, exchange, dlx, pairs, i);
    }
  }

  /** The routes of a topology with two main queues. */
  lemma RoutesOfTwo(t: Topology, exchange: string, dlx: string, pairs: seq<Pair>, a: Pair, b: Pair)
    requires Declared(t, exchange, dlx, pairs) && Compatible(exchange, dlx, pairs)
    requires forall p :: p in pairs <==> p == a || p == b
    ensures FanoutTargets(t, exchange) == {a.queue, b.queue}
    ensures DeadLetterTargets(t, a.queue) == {a.dlq} && DeadLetterTargets(t, b.queue) == {b.dlq}
    ensures {a.queue, b.queue} !! {a.dlq, b.dlq}
  {
    assert a in pairs && b in pairs;
    FanoutOf(t, exchange, dlx, pairs);
    DeadLettersOf(t, exchange, dlx, pairs, a);
    DeadLettersOf(t, exchange, dlx, pairs, b);
    assert MainQueues(pairs) == {a.queue, b.queue};
  }

  // ----- the messages in the queues -----

  type Contents = map<string, seq<Delivery>>

  function InQueue(c: Contents, queue: string): seq<Delivery> {
    if queue in c then c[queue] else []
  }

  /** Every target queue gets the messages at its end. */
  function Append(c: Contents, targets: set<string>, ds: seq<Delivery>): Contents {
    map q | q in c.Keys + targets :: InQueue(c, q) + if q in targets then ds else []
  }

  lemma AppendAt(c: Contents, targets: set<string>, ds: seq<Delivery>, queue: string)
    ensures InQueue(Append(c, targets, ds), queue)
            == if queue in targets then InQueue(c, queue) + ds else InQueue(c, queue)
  {
    assert InQueue(c, queue) + [] == InQueue(c, queue);
  }

  lemma AppendNowhere(c: Contents, ds: seq<Delivery>)
    ensures Append(c, {}, ds) == c
  {
    assert forall q :: q in c ==> InQueue(c, q) + [] == c[q];
  }

  /** A queue more among the targets is a queue more that gets the messages. */
  lemma AppendOneMore(c: Contents, done: set<string>, ds: seq<Delivery>, q: string)
    requires q !in done
    ensures var one := Append(c, done, ds);
            Append(c, done + {q}, ds) == one[q := InQueue(one, q) + ds]
  {
    var one := Append(c, done, ds);
    var left, right := Append(c, done + {q}, ds), one[q := InQueue(one, q) + ds];
    AppendAt(c, done, ds, q);
    assert left.Keys == right.Keys;
    forall p | p in left
      ensures left[p] == right[p]
    {
    }
  }

  /** The broker as one producer sees it. */
  class Channel {
    var topology: Topology
    var contents: Contents

    constructor ()
      ensures topology == FRESH && contents == map[]
    {
      topology, contents := FRESH, map[];
    }

    /** `connect`; after an error some declarations may have been made. */
    method Connect(exchange: string, pairs: seq<Pair>, dlx: string) returns (ok: bool)
      modifies this`topology
      ensures ok <==> Connected(old(topology), exchange, dlx, pairs).Some?
      ensures ok ==> topology == Connected(old(topology), exchange, dlx, pairs).value
    {
      var exchanges := DeclareExchanges(topology, exchange, dlx);
      if exchanges == None {
        return false;
      }
      topology := exchanges.value;
      ghost var start := topology;
      for n := 0 to |pairs|
        invariant DeclarePairs(start, exchange, dlx, pairs[..n]) == Some(topology)
      {
        assert pairs[..n + 1][..n] == pairs[..n];
        var next := DeclarePair(topology, exchange, dlx, pairs[n]);
        if next == None {
          StaysRefused(start, exchange, dlx, pairs, n + 1);
          return false;
        }
        topology := next.value;
      }
      assert pairs[..|pairs|] == pairs;
      return true;
    }

    /** A publish that the broker takes: queue after queue, in an order nobody knows, a copy goes to
        every bound queue. */
    method Publish(exchange: string, d: Delivery)
      modifies this`contents
      ensures contents == Append(old(contents), FanoutTargets(topology, exchange), [d])
    {
      var left := FanoutTargets(topology, exchange);
      ghost var targets, done: set<string> := left, {};
      AppendNowhere(contents, [d]);
      while left != {}
        invariant left !! done && left + done == targets
        invariant contents == Append(old(contents), done, [d])
        decreases left
      {
        var q :| q in left;
        AppendOneMore(old(contents), done, [d], q);
        contents := contents[q := InQueue(contents, q) + [d]];
        left, done := left - {q}, done + {q};
      }
      assert done == targets;
    }
  }

  lemma {:induction false} StaysRefused(t: Topology, exchange: string, dlx: string, pairs: seq<Pair>, n: nat)
    requires n <= |pairs| && DeclarePairs(t, exchange, dlx, pairs[..n]) == None
    ensures DeclarePairs(t, exchange, dlx, pairs) == None
    decreases |pairs| - n
  {
    if n == |pairs| {
      assert pairs[..n] == pairs;
    } else {
      assert pairs[..n + 1][..n] == pairs[..n];
      StaysRefused(t, exchange, dlx, pairs, n + 1);
    }
  }
}
