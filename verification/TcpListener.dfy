/** One TCP connection: bytes are read into a buffer, frames are taken off it and answered. */
module TcpListener {
  import opened Text
  import opened Framing
  import opened Lists
  import opened Messages
  import Parser
  import Response

  // ----- answering frames -----

  /** The bytes written for a frame: the response, behind a length header if the frame had one. */
  function Envelope(response: string, hasHeader: bool): string {
    if hasHeader then Format04(|response|) + response else response
  }

  /** The bytes written for a list of frames, and whether the connection survives them all: it dies
      at the first frame that has no response. */
  datatype Service = Service(out: string, alive: bool)

  function Serve(frames: seq<Frame>): Service {
    if frames == [] then Service("", true)
    else
      match Response.Reply(frames[0].payload)
      case None => Service("", false)
      case Some(r) =>
        var rest := Serve(frames[1..]);
        Service(Envelope(r, frames[0].hasHeader) + rest.out, rest.alive)
  }

  lemma {:induction false} ServeConcat(a: seq<Frame>, b: seq<Frame>)
    ensures Serve(a + b) == if Serve(a).alive then Service(Serve(a).out + Serve(b).out, Serve(b).alive)
                            else Serve(a)
  {
    if a == [] {
      assert a + b == b;
      assert "" + Serve(b).out == Serve(b).out;
    } else {
      assert (a + b)[1..] == a[1..] + b;
      ServeConcat(a[1..], b);
      match Response.Reply(a[0].payload)
      case None =>
      case Some(r) =>
        Associative(Envelope(r, a[0].hasHeader), Serve(a[1..]).out, Serve(b).out);
    }
  }

  lemma ServeOne(frame: Frame)
    ensures Serve([frame]) == (match Response.Reply(frame.payload)
                               case None => Service("", false)
                               case Some(r) => Service(Envelope(r, frame.hasHeader), true))
  {
    assert [frame][1..] == [];
    match Response.Reply(frame.payload)
    case None =>
    case Some(r) =>
      assert Envelope(r, frame.hasHeader) + "" == Envelope(r, frame.hasHeader);
  }

  /** What stands at the front of a buffer that starts with four digits. */
  lemma FrontOfHeader(buf: string, maxFrame: nat)
    requires |buf| >= 4 && forall i :: 0 <= i < 4 ==> IsDigit(buf[i])
    ensures HasHeader(buf)
    ensures var n := Value(buf[..4]);
            && (n == 0 ==> Front(buf, maxFrame) == Whole(KeepAlive) && buf == Bytes(KeepAlive) + buf[4..])
            && (n > maxFrame ==> Front(buf, maxFrame) == OverLimit)
            && (1 <= n <= maxFrame && |buf| < 4 + n ==> Front(buf, maxFrame) == Incomplete)
            && (1 <= n <= maxFrame && 4 + n <= |buf| ==>
                  && Front(buf, maxFrame) == Whole(Prefixed(buf[4..4 + n]))
                  && buf == Bytes(Prefixed(buf[4..4 + n])) + buf[4 + n..])
  {
    assert HasHeader(buf);
    var n := Value(buf[..4]);
    if n == 0 {
      assert Front(buf, maxFrame) == Whole(KeepAlive);
      PrefixSplit(Bytes(KeepAlive), buf);
    } else if n <= maxFrame && 4 + n <= |buf| {
      var p := Prefixed(buf[4..4 + n]);
      assert Front(buf, maxFrame) == Whole(p);
      PrefixSplit(Bytes(p), buf);
    }
  }

  lemma PrefixSplit<T>(a: seq<T>, s: seq<T>)
    requires a <= s
    ensures s == a + s[|a|..]
  {
  }

  lemma NoHeader(buf: string)
    requires |buf| >= 4 && exists i :: 0 <= i < 4 && !IsDigit(buf[i])
    ensures !HasHeader(buf)
  {
    var i :| 0 <= i < 4 && !IsDigit(buf[i]);
    assert buf[..4][i] == buf[i];
  }

  // ----- the connection -----

  /** Reads up to the first of zero bytes, which is the end of the stream. */
  function UpToEof(arrivals: seq<string>): (chunks: seq<string>)
    ensures chunks <= arrivals
    ensures forall i :: 0 <= i < |chunks| ==> |chunks[i]| > 0
    ensures |chunks| < |arrivals| ==> |arrivals[|chunks|]| == 0
  {
    if arrivals == [] || |arrivals[0]| == 0 then [] else [arrivals[0]] + UpToEof(arrivals[1..])
  }

  lemma NextChunk(arrivals: seq<string>, n: nat)
    requires n <= |UpToEof(arrivals)| && n < |arrivals| && |arrivals[n]| > 0
    ensures n < |UpToEof(arrivals)| && UpToEof(arrivals)[n] == arrivals[n]
  {
  }

  lemma LastChunk(arrivals: seq<string>, n: nat)
    requires n <= |UpToEof(arrivals)| && (n < |arrivals| ==> |arrivals[n]| == 0)
    ensures UpToEof(arrivals)[..n] == UpToEof(arrivals)
  {
  }

  class Connection {
    const maxFrame: nat
    var buf: string
    var totalBytes: nat
    var frameCount: nat
    /** Everything written to the socket. */
    var out: string
    /** What has been taken off the stream. */
    ghost var pieces: seq<Piece>

    constructor (maxFrame: nat)
      ensures this.maxFrame == maxFrame
      ensures buf == "" && totalBytes == 0 && frameCount == 0 && out == "" && pieces == []
    {
      this.maxFrame := maxFrame;
      buf, totalBytes, frameCount, out, pieces := "", 0, 0, "", [];
    }

    /** `extract_frame` */
    method ExtractFrame() returns (r: Option<Frame>)
      modifies this`buf, this`pieces
      ensures (match Front(old(buf), maxFrame)
               case Incomplete => r == None && buf == old(buf) && pieces == old(pieces)
               case OverLimit => r == None && buf == "" && pieces == old(pieces) + [Discarded(old(buf))]
               case Whole(p) =>
                 && old(buf) == Bytes(p) + buf
                 && pieces == old(pieces) + [p]
                 && r == if p.KeepAlive? then None else Some(FrameOf(p)))
    {
      if |buf| < 4 {
        return None;
      }
      if forall i :: 0 <= i < 4 ==> IsDigit(buf[i]) {
        FrontOfHeader(buf, maxFrame);
        var payloadLen := Value(buf[..4]);
        if payloadLen == 0 {
          pieces := pieces + [KeepAlive];
          buf := buf[4..];
          return None;
        }
        if payloadLen > maxFrame {
          pieces := pieces + [Discarded(buf)];
          buf := "";
          return None;
        }
        var frameEnd := 4 + payloadLen;
        if |buf| < frameEnd {
          return None;
        }
        var payload := buf[4..frameEnd];
        pieces := pieces + [Prefixed(payload)];
        buf := buf[frameEnd..];
        return Some(Frame(payload, true));
      }
      NoHeader(buf);
      if |buf| < FIXED_FRAME_SIZE {
        return None;
      }
      if FIXED_FRAME_SIZE > maxFrame {
        pieces := pieces + [Discarded(buf)];
        buf := "";
        return None;
      }
      var payload := buf[..FIXED_FRAME_SIZE];
      pieces := pieces + [Fixed(payload)];
      buf := buf[FIXED_FRAME_SIZE..];
      return Some(Frame(payload, false));
    }

    ghost function Abstract(): View
      reads this
    {
      View(buf, out, frameCount, pieces)
    }

    /** The bytes of one read are appended and the buffer is drained. Not `alive` means that a
        response could not be built and the connection died. */
    method OnRead(chunk: string) returns (alive: bool)
      modifies this
      ensures var c := Drain(old(buf) + chunk, maxFrame);
              var s := Serve(FramesOf(c.pieces));
              && alive == s.alive
              && out == old(out) + s.out
              && totalBytes == old(totalBytes) + |chunk|
              && (alive ==> buf == c.rest && pieces == old(pieces) + c.pieces
                            && frameCount == old(frameCount) + |FramesOf(c.pieces)|)
    {
      totalBytes := totalBytes + |chunk|;
      buf := buf + chunk;
      ghost var start := Abstract();
      ghost var taken: seq<Piece> := [];
      MidwayStarts(start, maxFrame);
      while true
        invariant Midway(start, Abstract(), taken, maxFrame)
        invariant totalBytes == old(totalBytes) + |chunk|
        decreases |buf|
      {
        ghost var before := Abstract();
        var next := ExtractFrame();
        if next == None {
          MidwayEnds(start, before, taken, maxFrame);
          return true;
        }
        ghost var p := Front(before.buf, maxFrame).piece;
        MidwayTakes(start, before, taken, p, buf, maxFrame);
        frameCount := frameCount + 1;
        var response := Response.Reply(next.value.payload);
        if response == None {
          return false;
        }
        out := out + Envelope(response.value, next.value.hasHeader);
        taken := taken + [p];
      }
    }

    /** `handle_connection` over the reads that the socket delivers. */
    method HandleConnection(arrivals: seq<string>) returns (alive: bool)
      requires buf == "" && out == "" && pieces == [] && totalBytes == 0 && frameCount == 0
      modifies this
      ensures var chunks := UpToEof(arrivals);
              && Service(out, alive) == Serve(FramesOf(Feed(chunks, maxFrame).pieces))
              && (alive ==> Fed(Abstract(), totalBytes, chunks, maxFrame))
    {
      ghost var chunks := UpToEof(arrivals);
      var n := 0;
      while n < |arrivals| && |arrivals[n]| > 0
        invariant n <= |chunks|
        invariant Fed(Abstract(), totalBytes, chunks[..n], maxFrame)
      {
        NextChunk(arrivals, n);
        FedNext(Abstract(), totalBytes, chunks, n, maxFrame);
        alive := OnRead(arrivals[n]);
        n := n + 1;
        if !alive {
          DeadStaysDead(chunks, n, maxFrame);
          return;
        }
      }
      LastChunk(arrivals, n);
      alive := true;
    }
  }

  /** The pieces `taken` so far and the drain of what is left make up the drain of `start`. */
  ghost predicate Draining(start: string, taken: seq<Piece>, left: string, maxFrame: nat) {
    && taken + Drain(left, maxFrame).pieces == Drain(start, maxFrame).pieces
    && Drain(left, maxFrame).rest == Drain(start, maxFrame).rest
  }

  lemma DrainTakes(p: Piece, tail: string, maxFrame: nat)
    requires Sound(p, maxFrame) && IsFrame(p)
    ensures Drain(Bytes(p) + tail, maxFrame) == Prepend(p, Drain(tail, maxFrame))
  {
    FrontOfSound(p, tail, maxFrame);
    assert (Bytes(p) + tail)[|Bytes(p)|..] == tail;
  }

  lemma DrainingTakes(start: string, taken: seq<Piece>, p: Piece, tail: string, maxFrame: nat)
    requires Draining(start, taken, Bytes(p) + tail, maxFrame)
    requires Sound(p, maxFrame) && IsFrame(p)
    ensures Draining(start, taken + [p], tail, maxFrame)
  {
    DrainTakes(p, tail, maxFrame);
    Associative(taken, [p], Drain(tail, maxFrame).pieces);
  }

  lemma ServeTaken(taken: seq<Piece>, p: Piece)
    requires IsFrame(p) && Serve(FramesOf(taken)).alive
    ensures FramesOf(taken + [p]) == FramesOf(taken) + [FrameOf(p)]
    ensures Serve(FramesOf(taken + [p])) == (match Response.Reply(p.payload)
                                             case None => Service(Serve(FramesOf(taken)).out, false)
                                             case Some(r) =>
                                               Service(Serve(FramesOf(taken)).out + Envelope(r, p.Prefixed?), true))
  {
    FramesConcat(taken, [p]);
    OnePiece(p);
    ServeConcat(FramesOf(taken), [FrameOf(p)]);
    ServeOne(FrameOf(p));
    assert Serve(FramesOf(taken)).out + "" == Serve(FramesOf(taken)).out;
  }

  /** A panic: what has been served before it is all that is served. */
  lemma DrainingDies(start: string, taken: seq<Piece>, left: string, maxFrame: nat)
    requires Draining(start, taken, left, maxFrame)
    requires !Serve(FramesOf(taken)).alive
    ensures Serve(FramesOf(Drain(start, maxFrame).pieces)) == Serve(FramesOf(taken))
  {
    var rest := Drain(left, maxFrame).pieces;
    FramesConcat(taken, rest);
    ServeConcat(FramesOf(taken), FramesOf(rest));
  }

  datatype View = View(buf: string, out: string, frameCount: nat, pieces: seq<Piece>)

  /** The drain loop has taken, counted and answered `taken` since `start`. */
  ghost predicate Midway(start: View, now: View, taken: seq<Piece>, maxFrame: nat) {
    && Draining(start.buf, taken, now.buf, maxFrame)
    && Serve(FramesOf(taken)).alive
    && now.out == start.out + Serve(FramesOf(taken)).out
    && now.frameCount == start.frameCount + |FramesOf(taken)|
    && now.pieces == start.pieces + taken
  }

  lemma MidwayStarts(start: View, maxFrame: nat)
    ensures Midway(start, start, [], maxFrame)
  {
    assert start.out + "" == start.out;
    assert start.pieces + [] == start.pieces;
    assert [] + Drain(start.buf, maxFrame).pieces == Drain(start.buf, maxFrame).pieces;
  }

  lemma MidwayTakes(start: View, now: View, taken: seq<Piece>, p: Piece, tail: string, maxFrame: nat)
    requires Midway(start, now, taken, maxFrame)
    requires now.buf == Bytes(p) + tail && Sound(p, maxFrame) && IsFrame(p)
    ensures (match Response.Reply(p.payload)
             case None =>
               var s := Serve(FramesOf(Drain(start.buf, maxFrame).pieces));
               !s.alive && now.out == start.out + s.out
             case Some(r) =>
               Midway(start, View(tail, now.out + Envelope(r, p.Prefixed?), now.frameCount + 1, now.pieces + [p]),
                      taken + [p], maxFrame))
  {
    DrainingTakes(start.buf, taken, p, tail, maxFrame);
    ServeTaken(taken, p);
    match Response.Reply(p.payload)
    case None => DrainingDies(start.buf, taken + [p], tail, maxFrame);
    case Some(r) =>
      Associative(start.out, Serve(FramesOf(taken)).out, Envelope(r, p.Prefixed?));
      Associative(start.pieces, taken, [p]);
  }

  /** `extract_frame` returning nothing ends the drain: no frame is left in it. */
  lemma MidwayEnds(start: View, now: View, taken: seq<Piece>, maxFrame: nat)
    requires Midway(start, now, taken, maxFrame)
    requires !Front(now.buf, maxFrame).Whole? || Front(now.buf, maxFrame).piece.KeepAlive?
    ensures var c := Drain(start.buf, maxFrame);
            && FramesOf(c.pieces) == FramesOf(taken)
            && Drain(now.buf, maxFrame).rest == c.rest
            && now.pieces + Drain(now.buf, maxFrame).pieces == start.pieces + c.pieces
  {
    var last := Drain(now.buf, maxFrame).pieces;
    NoFrameLeft(now.buf, maxFrame);
    FramesConcat(taken, last);
    Associative(start.pieces, taken, last);
  }

  lemma NoFrameLeft(left: string, maxFrame: nat)
    requires !Front(left, maxFrame).Whole? || Front(left, maxFrame).piece.KeepAlive?
    ensures FramesOf(Drain(left, maxFrame).pieces) == []
  {
    match Front(left, maxFrame)
    case Incomplete =>
    case OverLimit => OnePiece(Discarded(left));
    case Whole(p) => OnePiece(p);
  }

  lemma ServeNext(chunks: seq<string>, n: nat, maxFrame: nat)
    requires n < |chunks|
    ensures var g := Feed(chunks[..n], maxFrame);
            var c := Drain(g.buffer + chunks[n], maxFrame);
            var before, now := Serve(FramesOf(g.pieces)), Serve(FramesOf(c.pieces));
            var h := Feed(chunks[..n + 1], maxFrame);
            && h == History(g.pieces + c.pieces, c.rest)
            && FramesOf(h.pieces) == FramesOf(g.pieces) + FramesOf(c.pieces)
            && Serve(FramesOf(h.pieces))
               == (if before.alive then Service(before.out + now.out, now.alive) else before)
            && |Concat(chunks[..n + 1])| == |Concat(chunks[..n])| + |chunks[n]|
  {
    FeedNext(chunks, n, maxFrame);
    var g := Feed(chunks[..n], maxFrame);
    var c := Drain(g.buffer + chunks[n], maxFrame);
    FramesConcat(g.pieces, c.pieces);
    ServeConcat(FramesOf(g.pieces), FramesOf(c.pieces));
  }

  /** A connection that has served some reads: its pieces and buffer are those of feeding them, and
      every frame has been answered. */
  ghost predicate Fed(v: View, totalBytes: nat, chunks: seq<string>, maxFrame: nat) {
    && History(v.pieces, v.buf) == Feed(chunks, maxFrame)
    && Service(v.out, true) == Serve(FramesOf(v.pieces))
    && v.frameCount == |FramesOf(v.pieces)|
    && totalBytes == |Concat(chunks)|
  }

  lemma FedNext(v: View, totalBytes: nat, chunks: seq<string>, n: nat, maxFrame: nat)
    requires n < |chunks| && Fed(v, totalBytes, chunks[..n], maxFrame)
    ensures var c := Drain(v.buf + chunks[n], maxFrame);
            var s := Serve(FramesOf(c.pieces));
            var frameCount := v.frameCount + |FramesOf(c.pieces)|;
            if s.alive then
              Fed(View(c.rest, v.out + s.out, frameCount, v.pieces + c.pieces), totalBytes + |chunks[n]|,
                  chunks[..n + 1], maxFrame)
            else Service(v.out + s.out, false) == Serve(FramesOf(Feed(chunks[..n + 1], maxFrame).pieces))
  {
    ServeNext(chunks, n, maxFrame);
  }

  /** Once a frame among the first `n` reads has no response, later reads add nothing. */
  lemma {:induction false} DeadStaysDead(chunks: seq<string>, n: nat, maxFrame: nat)
    requires n <= |chunks|
    requires !Serve(FramesOf(Feed(chunks[..n], maxFrame).pieces)).alive
    ensures Serve(FramesOf(Feed(chunks, maxFrame).pieces))
            == Serve(FramesOf(Feed(chunks[..n], maxFrame).pieces))
    decreases |chunks| - n
  {
    if n == |chunks| {
      assert chunks[..n] == chunks;
    } else {
      ServeNext(chunks, n, maxFrame);
      DeadStaysDead(chunks, n + 1, maxFrame);
    }
  }

  // ----- the response stream -----

  /** The answer to a frame, as a piece of the output stream. */
  function Answer(p: Piece): Piece
    requires IsFrame(p) && Response.Reply(p.payload).Some?
  {
    var r := Response.Reply(p.payload).value;
    if p.Prefixed? then Prefixed(r) else Fixed(r)
  }

  function Answers(pieces: seq<Piece>): seq<Piece>
    requires forall i :: 0 <= i < |pieces| && IsFrame(pieces[i]) ==> Response.Reply(pieces[i].payload).Some?
  {
    if pieces == [] then []
    else (if IsFrame(pieces[0]) then [Answer(pieces[0])] else []) + Answers(pieces[1..])
  }

  predicate Answerable(pieces: seq<Piece>) {
    forall i :: 0 <= i < |pieces| && IsFrame(pieces[i]) ==> Response.Reply(pieces[i].payload).Some?
  }

  lemma AnswerSound(p: Piece, maxFrame: nat)
    requires Sound(p, maxFrame) && IsFrame(p) && Response.Reply(p.payload).Some?
    ensures Sound(Answer(p), maxFrame)
    ensures Bytes(Answer(p)) == Envelope(Response.Reply(p.payload).value, p.Prefixed?)
  {
    var r := Response.Reply(p.payload).value;
    if p.Fixed? {
      assert r[..4] == p.payload[..4] by {
        Response.ReplyHead(p.payload);
      }
    }
  }

  lemma {:induction false} AliveIfAnswerable(pieces: seq<Piece>)
    ensures Serve(FramesOf(pieces)).alive <==> Answerable(pieces)
  {
    if pieces == [] {
    } else {
      var p, tail := pieces[0], pieces[1..];
      AliveIfAnswerable(tail);
      AnswerableCons(pieces);
      if IsFrame(p) {
        assert FramesOf(pieces)[1..] == FramesOf(tail);
      } else {
        assert FramesOf(pieces) == FramesOf(tail);
      }
    }
  }

  lemma AnswerableCons(pieces: seq<Piece>)
    requires pieces != []
    ensures Answerable(pieces)
            <==> (IsFrame(pieces[0]) ==> Response.Reply(pieces[0].payload).Some?) && Answerable(pieces[1..])
  {
    assert forall i :: 1 <= i < |pieces| ==> pieces[i] == pieces[1..][i - 1];
  }

  /** The output of a connection is the wire image of one answer per frame, in order. */
  lemma {:induction false} OutputIsWire(pieces: seq<Piece>, maxFrame: nat)
    requires SoundOrDiscarded(pieces, maxFrame) && Answerable(pieces)
    ensures Serve(FramesOf(pieces)).out == Wire(Answers(pieces))
  {
    if pieces == [] {
    } else {
      var p, tail := pieces[0], pieces[1..];
      AnswerableCons(pieces);
      OutputIsWire(tail, maxFrame);
      if IsFrame(p) {
        OneMoreAnswer(pieces, maxFrame);
      } else {
        assert FramesOf(pieces) == FramesOf(tail);
        assert Answers(pieces) == Answers(tail);
      }
    }
  }

  lemma OneMoreAnswer(pieces: seq<Piece>, maxFrame: nat)
    requires pieces != [] && Answerable(pieces) && Answerable(pieces[1..])
    requires IsFrame(pieces[0]) && Sound(pieces[0], maxFrame)
    ensures Serve(FramesOf(pieces)).out == Bytes(Answer(pieces[0])) + Serve(FramesOf(pieces[1..])).out
    ensures Wire(Answers(pieces)) == Bytes(Answer(pieces[0])) + Wire(Answers(pieces[1..]))
  {
    assert FramesOf(pieces)[1..] == FramesOf(pieces[1..]);
    AnswerSound(pieces[0], maxFrame);
    WireCons(Answer(pieces[0]), Answers(pieces[1..]));
  }

  lemma {:induction false} AnswersSound(pieces: seq<Piece>, maxFrame: nat)
    requires SoundOrDiscarded(pieces, maxFrame) && Answerable(pieces)
    ensures AllSound(Answers(pieces), maxFrame)
    ensures forall p :: p in Answers(pieces) ==> IsFrame(p)
  {
    if pieces == [] {
    } else {
      AnswerableCons(pieces);
      AnswersSound(pieces[1..], maxFrame);
      if IsFrame(pieces[0]) {
        AnswerSound(pieces[0], maxFrame);
      }
    }
  }

  lemma {:induction false} DrainOfFrames(pieces: seq<Piece>, maxFrame: nat)
    requires AllSound(pieces, maxFrame)
    requires forall p :: p in pieces ==> IsFrame(p)
    ensures Drain(Wire(pieces), maxFrame) == Cut(pieces, "")
  {
    if pieces == [] {
    } else {
      DrainOfFrames(pieces[1..], maxFrame);
      DrainTakes(pieces[0], Wire(pieces[1..]), maxFrame);
    }
  }

  /** How a response frame relates to its request frame. */
  predicate Answered(request: Frame, response: Frame) {
    && response.hasHeader == request.hasHeader
    && |response.payload| == |request.payload|
    && Response.Reply(request.payload) == Some(response.payload)
  }

  /** One response per request, in order. */
  predicate AllAnswered(requests: seq<Frame>, responses: seq<Frame>) {
    |requests| == |responses| && forall i :: 0 <= i < |requests| ==> Answered(requests[i], responses[i])
  }

  lemma AllAnsweredCons(request: Frame, response: Frame, requests: seq<Frame>, responses: seq<Frame>)
    requires Answered(request, response) && AllAnswered(requests, responses)
    ensures AllAnswered([request] + requests, [response] + responses)
  {
  }

  lemma AnswerFrames(pieces: seq<Piece>)
    requires pieces != [] && IsFrame(pieces[0]) && Answerable(pieces) && Answerable(pieces[1..])
    ensures FramesOf(pieces) == [FrameOf(pieces[0])] + FramesOf(pieces[1..])
    ensures FramesOf(Answers(pieces)) == [FrameOf(Answer(pieces[0]))] + FramesOf(Answers(pieces[1..]))
    ensures Answered(FrameOf(pieces[0]), FrameOf(Answer(pieces[0])))
  {
    FramesConcat([Answer(pieces[0])], Answers(pieces[1..]));
    OnePiece(Answer(pieces[0]));
  }

  lemma {:induction false} AnswersMatch(pieces: seq<Piece>)
    requires Answerable(pieces)
    ensures AllAnswered(FramesOf(pieces), FramesOf(Answers(pieces)))
  {
    if pieces == [] {
    } else {
      var p, tail := pieces[0], pieces[1..];
      AnswerableCons(pieces);
      AnswersMatch(tail);
      if IsFrame(p) {
        AnswerFrames(pieces);
        AllAnsweredCons(FrameOf(p), FrameOf(Answer(p)), FramesOf(tail), FramesOf(Answers(tail)));
      } else {
        assert FramesOf(pieces) == FramesOf(tail);
        assert Answers(pieces) == Answers(tail);
      }
    }
  }

  /** Response stream round trip: when every frame has a response, deframing everything that a
      connection wrote gives exactly one response per request frame, in order, with the same
      header flag and length, and leaves no byte over. */
  lemma ResponseStream(chunks: seq<string>, maxFrame: nat)
    requires Serve(FramesOf(Feed(chunks, maxFrame).pieces)).alive
    ensures var requests := FramesOf(Feed(chunks, maxFrame).pieces);
            var back := Drain(Serve(requests).out, maxFrame);
            var responses := FramesOf(back.pieces);
            && back.rest == ""
            && AllAnswered(requests, responses)
  {
    var pieces := Feed(chunks, maxFrame).pieces;
    BytesConserved(chunks, maxFrame);
    AliveIfAnswerable(pieces);
    OutputIsWire(pieces, maxFrame);
    AnswersSound(pieces, maxFrame);
    DrainOfFrames(Answers(pieces), maxFrame);
    AnswersMatch(pieces);
  }

  /** For a stream with no frame over the limit and none behind a zero-length header, every frame of
      the stream is answered, however its bytes arrive. */
  lemma EveryFrameAnswered(chunks: seq<string>, maxFrame: nat)
    requires Clean(Concat(chunks), maxFrame)
    requires !FrameBehindKeepAlive(Deframe(Concat(chunks), maxFrame).pieces)
    requires Serve(FramesOf(Deframe(Concat(chunks), maxFrame).pieces)).alive
    ensures var requests := FramesOf(Deframe(Concat(chunks), maxFrame).pieces);
            var back := Drain(Serve(FramesOf(Feed(chunks, maxFrame).pieces)).out, maxFrame);
            back.rest == "" && AllAnswered(requests, FramesOf(back.pieces))
  {
    AllHandedOn(chunks, maxFrame);
    ResponseStream(chunks, maxFrame);
  }

  predicate HasResponse(frame: Frame) {
    var n := |Parser.FieldText(frame.payload, MsgType)|;
    |frame.payload| < Parser.MIN_PAYLOAD || n == 0 || n == 4
  }

  /** The connection survives exactly when every frame is too short to parse or has a trimmed
      message type that is empty or four bytes long. */
  lemma {:induction false} AliveIff(frames: seq<Frame>)
    ensures Serve(frames).alive <==> forall f :: f in frames ==> HasResponse(f)
  {
    if frames == [] {
    } else {
      var f, tail := frames[0], frames[1..];
      AliveIff(tail);
      Response.AnsweredIff(f.payload);
      assert Serve(frames).alive <==> HasResponse(f) && Serve(tail).alive;
      assert frames == [f] + tail;
    }
  }
}
