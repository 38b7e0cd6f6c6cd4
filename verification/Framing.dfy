/** Deframing of a TCP byte stream that mixes `LLLL{payload}` frames and fixed 170-byte frames.

    A stream is cut into pieces: keep-alive headers (`0000`), framed payloads and, when a frame
    is over the limit, discarded bytes. `Front` says what stands at the front of a stream,
    `Deframe` cuts a whole stream that is already there, `Drain` is what one read does to the
    buffer, and `Feed` is a sequence of reads. */
module Framing {
  import opened Text
  import opened Lists

  const FIXED_FRAME_SIZE := 170

  /** A payload handed to `process_frame`, and whether an `LLLL` header preceded it. */
  datatype Frame = Frame(payload: string, hasHeader: bool)

  datatype Piece =
    | KeepAlive
    | Prefixed(payload: string)
    | Fixed(payload: string)
    | Discarded(bytes: string)

  // ----- pieces and their bytes -----

  function Bytes(p: Piece): string {
    match p
    case KeepAlive => "0000"
    case Prefixed(payload) => Format04(|payload|) + payload
    case Fixed(payload) => payload
    case Discarded(bytes) => bytes
  }

  function Wire(pieces: seq<Piece>): string {
    if pieces == [] then "" else Bytes(pieces[0]) + Wire(pieces[1..])
  }

  lemma WireCons(p: Piece, pieces: seq<Piece>)
    ensures Wire([p] + pieces) == Bytes(p) + Wire(pieces)
  {
    assert ([p] + pieces)[1..] == pieces;
  }

  predicate IsFrame(p: Piece) {
    p.Prefixed? || p.Fixed?
  }

  function FrameOf(p: Piece): Frame
    requires IsFrame(p)
  {
    Frame(p.payload, p.Prefixed?)
  }

  function FramesOf(pieces: seq<Piece>): seq<Frame> {
    if pieces == [] then []
    else (if IsFrame(pieces[0]) then [FrameOf(pieces[0])] else []) + FramesOf(pieces[1..])
  }

  predicate NoDiscards(pieces: seq<Piece>) {
    forall i :: 0 <= i < |pieces| ==> !pieces[i].Discarded?
  }

  predicate HasHeader(s: string) {
    |s| >= 4 && AllDigits(s[..4])
  }

  /** A piece the deframer may take off a stream whole. */
  predicate Sound(p: Piece, maxFrame: nat) {
    match p
    case KeepAlive => true
    case Prefixed(payload) => 1 <= |payload| <= maxFrame && |payload| < 10000
    case Fixed(payload) => |payload| == FIXED_FRAME_SIZE <= maxFrame && !HasHeader(payload)
    case Discarded(_) => false
  }

  predicate AllSound(pieces: seq<Piece>, maxFrame: nat) {
    forall i :: 0 <= i < |pieces| ==> Sound(pieces[i], maxFrame)
  }

  predicate SoundOrDiscarded(pieces: seq<Piece>, maxFrame: nat) {
    forall i :: 0 <= i < |pieces| ==> pieces[i].Discarded? || Sound(pieces[i], maxFrame)
  }

  // ----- the front of a stream -----

  datatype Head = Incomplete | OverLimit | Whole(piece: Piece)

  function Front(s: string, maxFrame: nat): (h: Head)
    ensures h.Whole? ==> Sound(h.piece, maxFrame) && Bytes(h.piece) <= s && |Bytes(h.piece)| >= 4
  {
    if |s| < 4 then Incomplete
    else if HasHeader(s) then
      assert Power10(4) == 10000;
      var n := Value(s[..4]);
      DigitsOfValue(s[..4]);
      if n == 0 then Whole(KeepAlive)
      else if n > maxFrame then OverLimit
      else if |s| < 4 + n then Incomplete
      else
        assert s[..4] + s[4..4 + n] == s[..4 + n];
        Whole(Prefixed(s[4..4 + n]))
    else if |s| < FIXED_FRAME_SIZE then Incomplete
    else if FIXED_FRAME_SIZE > maxFrame then OverLimit
    else
      assert s[..FIXED_FRAME_SIZE][..4] == s[..4];
      Whole(Fixed(s[..FIXED_FRAME_SIZE]))
  }

  /** What stands at the front is settled by the bytes that are there: more bytes behind them
      change nothing. */
  lemma FrontStable(s: string, x: string, maxFrame: nat)
    requires !Front(s, maxFrame).Incomplete?
    ensures Front(s + x, maxFrame) == Front(s, maxFrame)
  {
    assert (s + x)[..4] == s[..4];
    if HasHeader(s) {
      var n := Value(s[..4]);
      if 0 < n <= maxFrame {
        assert (s + x)[4..4 + n] == s[4..4 + n];
      }
    } else {
      assert (s + x)[..FIXED_FRAME_SIZE] == s[..FIXED_FRAME_SIZE];
    }
  }

  /** The bytes of a sound piece are read back as that piece. */
  lemma FrontOfSound(p: Piece, x: string, maxFrame: nat)
    requires Sound(p, maxFrame)
    ensures Front(Bytes(p) + x, maxFrame) == Whole(p)
  {
    var s := Bytes(p) + x;
    match p
    case KeepAlive =>
      assert s[..4] == "0000";
      assert Value("0000") == 0 by { ValueOfDigits(0, 4); assert Digits(0, 4) == "0000"; }
    case Prefixed(payload) =>
      assert Power10(4) == 10000;
      ValueOfDigits(|payload|, 4);
      assert s[..4] == Format04(|payload|);
      assert s[4..4 + |payload|] == payload;
    case Fixed(payload) =>
      assert s[..4] == payload[..4];
      assert s[..FIXED_FRAME_SIZE] == payload;
  }

  /** A payload sent in the fixed format is taken off whole exactly when its first four bytes are
      not all digits; otherwise they are read as a length. */
  lemma FixedReadIff(payload: string, x: string, maxFrame: nat)
    requires |payload| == FIXED_FRAME_SIZE <= maxFrame
    ensures Front(payload + x, maxFrame) == Whole(Fixed(payload)) <==> !HasHeader(payload)
  {
    if HasHeader(payload) {
      assert (payload + x)[..4] == payload[..4];
    } else {
      FrontOfSound(Fixed(payload), x, maxFrame);
    }
  }

  /** Without four digits in front, 170 bytes make a frame, and if the limit is lower they are over
      it; fewer bytes wait. */
  lemma FrontOfFixed(s: string, maxFrame: nat)
    requires |s| >= 4 && !(forall i :: 0 <= i < 4 ==> '0' <= s[i] <= '9')
    ensures |s| < 170 ==> Front(s, maxFrame) == Incomplete
    ensures |s| >= 170 > maxFrame ==> Front(s, maxFrame) == OverLimit
    ensures |s| >= 170 && maxFrame >= 170 ==> Front(s, maxFrame) == Whole(Fixed(s[..170]))
  {
    var i :| 0 <= i < 4 && !('0' <= s[i] <= '9');
    assert s[..4][i] == s[i];
  }

  // ----- reference: cutting a stream that has arrived whole -----

  datatype Cut = Cut(pieces: seq<Piece>, rest: string)

  function Prepend(p: Piece, c: Cut): Cut {
    Cut([p] + c.pieces, c.rest)
  }

  function Deframe(s: string, maxFrame: nat): Cut
    decreases |s|
  {
    match Front(s, maxFrame)
    case Whole(p) => Prepend(p, Deframe(s[|Bytes(p)|..], maxFrame))
    case _ => Cut([], s)
  }

  /** No frame of the stream is over the limit. */
  predicate Clean(s: string, maxFrame: nat) {
    Front(Deframe(s, maxFrame).rest, maxFrame).Incomplete?
  }

  lemma PrependConserves(p: Piece, tail: string, c: Cut)
    requires tail == Wire(c.pieces) + c.rest
    ensures Bytes(p) + tail == Wire(Prepend(p, c).pieces) + Prepend(p, c).rest
  {
    WireCons(p, c.pieces);
    Associative(Bytes(p), Wire(c.pieces), c.rest);
  }

  lemma {:induction false} DeframeConserves(s: string, maxFrame: nat)
    ensures var c := Deframe(s, maxFrame);
            && s == Wire(c.pieces) + c.rest
            && AllSound(c.pieces, maxFrame)
            && !Front(c.rest, maxFrame).Whole?
    decreases |s|
  {
    match Front(s, maxFrame)
    case Whole(p) =>
      var tail := s[|Bytes(p)|..];
      DeframeConserves(tail, maxFrame);
      PrependConserves(p, tail, Deframe(tail, maxFrame));
    case _ =>
  }

  lemma DeframeStep(p: Piece, tail: string, maxFrame: nat)
    requires Sound(p, maxFrame)
    ensures Deframe(Bytes(p) + tail, maxFrame) == Prepend(p, Deframe(tail, maxFrame))
  {
    FrontOfSound(p, tail, maxFrame);
    assert (Bytes(p) + tail)[|Bytes(p)|..] == tail;
  }

  /** The framing round trip: the pieces of a wire image are found again, whatever follows. */
  lemma {:induction false} DeframeOfWire(pieces: seq<Piece>, x: string, maxFrame: nat)
    requires AllSound(pieces, maxFrame)
    ensures Deframe(Wire(pieces) + x, maxFrame)
            == Cut(pieces + Deframe(x, maxFrame).pieces, Deframe(x, maxFrame).rest)
  {
    var d := Deframe(x, maxFrame);
    if pieces == [] {
      assert Wire(pieces) + x == x;
      assert pieces + d.pieces == d.pieces;
    } else {
      var p, tail := pieces[0], Wire(pieces[1..]) + x;
      assert Wire(pieces) + x == Bytes(p) + tail by {
        Associative(Bytes(p), Wire(pieces[1..]), x);
      }
      assert Deframe(Bytes(p) + tail, maxFrame) == Prepend(p, Deframe(tail, maxFrame)) by {
        DeframeStep(p, tail, maxFrame);
      }
      assert Deframe(tail, maxFrame) == Cut(pieces[1..] + d.pieces, d.rest) by {
        DeframeOfWire(pieces[1..], x, maxFrame);
      }
      HeadTail(pieces, d.pieces);
    }
  }

  /** The same of a stream that ends there. */
  lemma WireDeframes(pieces: seq<Piece>, maxFrame: nat)
    requires AllSound(pieces, maxFrame)
    ensures Deframe(Wire(pieces), maxFrame) == Cut(pieces, "") && Clean(Wire(pieces), maxFrame)
  {
    assert Deframe("", maxFrame) == Cut([], "");
    assert Wire(pieces) + "" == Wire(pieces) && pieces + [] == pieces;
    DeframeOfWire(pieces, "", maxFrame);
  }

  lemma HeadTail<T>(a: seq<T>, b: seq<T>)
    requires a != []
    ensures [a[0]] + (a[1..] + b) == a + b
  {
  }

  // ----- one read: draining the buffer -----

  /** The inner loop of `handle_connection`: take frames until `extract_frame` returns nothing.
      A zero-length header ends the loop although more frames may be buffered, and a frame over
      the limit throws the whole buffer away. */
  function Drain(s: string, maxFrame: nat): Cut
    decreases |s|
  {
    match Front(s, maxFrame)
    case Incomplete => Cut([], s)
    case OverLimit => Cut([Discarded(s)], "")
    case Whole(p) =>
      var tail := s[|Bytes(p)|..];
      if p.KeepAlive? then Cut([p], tail) else Prepend(p, Drain(tail, maxFrame))
  }

  lemma SoundCons(p: Piece, pieces: seq<Piece>, maxFrame: nat)
    requires p.Discarded? || Sound(p, maxFrame)
    requires SoundOrDiscarded(pieces, maxFrame)
    ensures SoundOrDiscarded([p] + pieces, maxFrame)
  {
  }

  lemma DrainWhole(s: string, maxFrame: nat)
    requires Front(s, maxFrame).Whole?
    ensures var p := Front(s, maxFrame).piece;
            var tail := s[|Bytes(p)|..];
            && Sound(p, maxFrame)
            && s == Bytes(p) + tail
            && |tail| < |s|
            && Drain(s, maxFrame) == Prepend(p, if p.KeepAlive? then Cut([], tail) else Drain(tail, maxFrame))
  {
  }

  lemma {:induction false} DrainConserves(s: string, maxFrame: nat)
    ensures var c := Drain(s, maxFrame);
            && s == Wire(c.pieces) + c.rest
            && SoundOrDiscarded(c.pieces, maxFrame)
    decreases |s|
  {
    match Front(s, maxFrame)
    case Incomplete =>
    case OverLimit =>
      SoundCons(Discarded(s), [], maxFrame);
      PrependConserves(Discarded(s), "", Cut([], ""));
    case Whole(p) =>
      var tail := s[|Bytes(p)|..];
      var c := if p.KeepAlive? then Cut([], tail) else Drain(tail, maxFrame);
      DrainWhole(s, maxFrame);
      if !p.KeepAlive? {
        DrainConserves(tail, maxFrame);
      }
      SoundCons(p, c.pieces, maxFrame);
      PrependConserves(p, tail, c);
  }

  /** Each frame takes at least five bytes off the buffer, and a drain that no keep-alive cut
      short leaves less than the longest frame. */
  lemma {:induction false} DrainBounds(s: string, maxFrame: nat)
    ensures var c := Drain(s, maxFrame);
            && |s| >= 5 * |FramesOf(c.pieces)| + |c.rest|
            && (KeepAlive !in c.pieces ==> |c.rest| < Max(FIXED_FRAME_SIZE, 4 + maxFrame))
    decreases |s|
  {
    var c := Drain(s, maxFrame);
    match Front(s, maxFrame)
    case Incomplete =>
    case OverLimit =>
      assert FramesOf(c.pieces) == FramesOf([]);
    case Whole(p) =>
      var tail := s[|Bytes(p)|..];
      if p.KeepAlive? {
        assert KeepAlive in c.pieces;
        assert FramesOf(c.pieces) == FramesOf([]);
      } else {
        DrainBounds(tail, maxFrame);
        assert c.pieces[1..] == Drain(tail, maxFrame).pieces;
        assert KeepAlive !in c.pieces ==> KeepAlive !in c.pieces[1..];
      }
  }

  // ----- a connection: any number of reads -----

  datatype History = History(pieces: seq<Piece>, buffer: string)

  function Read(h: History, chunk: string, maxFrame: nat): History {
    var c := Drain(h.buffer + chunk, maxFrame);
    History(h.pieces + c.pieces, c.rest)
  }

  function Feed(chunks: seq<string>, maxFrame: nat): History {
    if chunks == [] then History([], "")
    else Read(Feed(chunks[..|chunks| - 1], maxFrame), chunks[|chunks| - 1], maxFrame)
  }

  lemma FeedNext(chunks: seq<string>, n: nat, maxFrame: nat)
    requires n < |chunks|
    ensures Feed(chunks[..n + 1], maxFrame) == Read(Feed(chunks[..n], maxFrame), chunks[n], maxFrame)
    ensures Concat(chunks[..n + 1]) == Concat(chunks[..n]) + chunks[n]
  {
    assert chunks[..n + 1][..n] == chunks[..n];
  }

  /** The bytes of all reads, in order. */
  function Concat(chunks: seq<string>): string {
    if chunks == [] then "" else Concat(chunks[..|chunks| - 1]) + chunks[|chunks| - 1]
  }

  const READ_SIZE := 4096

  /** A way the bytes of `s` may arrive: reads return between one and 4096 bytes. */
  predicate IsSplit(chunks: seq<string>, s: string) {
    && Concat(chunks) == s
    && forall i :: 0 <= i < |chunks| ==> 1 <= |chunks[i]| <= READ_SIZE
  }

  lemma {:induction false} WireConcat(a: seq<Piece>, b: seq<Piece>)
    ensures Wire(a + b) == Wire(a) + Wire(b)
  {
    if a == [] {
      assert a + b == b;
    } else {
      WireConcat(a[1..], b);
      assert (a + b)[1..] == a[1..] + b;
      Associative(Bytes(a[0]), Wire(a[1..]), Wire(b));
    }
  }

  lemma {:induction false} FramesConcat(a: seq<Piece>, b: seq<Piece>)
    ensures FramesOf(a + b) == FramesOf(a) + FramesOf(b)
  {
    if a == [] {
      assert a + b == b;
    } else {
      assert (a + b)[1..] == a[1..] + b;
      FramesConcat(a[1..], b);
      Associative(if IsFrame(a[0]) then [FrameOf(a[0])] else [], FramesOf(a[1..]), FramesOf(b));
    }
  }

  /** Byte conservation, for every stream and every split: the bytes received are exactly the
      headers, payloads and discarded bytes so far, in order, followed by the buffer. */
  lemma {:induction false} BytesConserved(chunks: seq<string>, maxFrame: nat)
    ensures var h := Feed(chunks, maxFrame);
            && Concat(chunks) == Wire(h.pieces) + h.buffer
            && SoundOrDiscarded(h.pieces, maxFrame)
  {
    if chunks == [] {
    } else {
      var before, chunk := chunks[..|chunks| - 1], chunks[|chunks| - 1];
      BytesConserved(before, maxFrame);
      ReadConserves(Feed(before, maxFrame), Concat(before), chunk, maxFrame);
    }
  }

  lemma ReadConserves(g: History, s: string, chunk: string, maxFrame: nat)
    requires s == Wire(g.pieces) + g.buffer
    requires SoundOrDiscarded(g.pieces, maxFrame)
    ensures var h := Read(g, chunk, maxFrame);
            && s + chunk == Wire(h.pieces) + h.buffer
            && SoundOrDiscarded(h.pieces, maxFrame)
  {
    var c := Drain(g.buffer + chunk, maxFrame);
    DrainConserves(g.buffer + chunk, maxFrame);
    Associative(Wire(g.pieces), g.buffer, chunk);
    Associative(Wire(g.pieces), Wire(c.pieces), c.rest);
    WireConcat(g.pieces, c.pieces);
  }

  lemma NoDiscardsConcat(a: seq<Piece>, b: seq<Piece>)
    ensures NoDiscards(a + b) <==> NoDiscards(a) && NoDiscards(b)
  {
    assert forall i :: 0 <= i < |a| ==> a[i] == (a + b)[i];
    assert forall i :: 0 <= i < |b| ==> b[i] == (a + b)[|a| + i];
  }

  /** If nothing was discarded, the frames handed on so far, followed by the reference cut of
      the buffer, are the reference cut of all the bytes received. */
  lemma KeptIsReference(chunks: seq<string>, maxFrame: nat)
    requires NoDiscards(Feed(chunks, maxFrame).pieces)
    ensures var h := Feed(chunks, maxFrame);
            && Deframe(Concat(chunks), maxFrame).pieces == h.pieces + Deframe(h.buffer, maxFrame).pieces
            && Deframe(Concat(chunks), maxFrame).rest == Deframe(h.buffer, maxFrame).rest
  {
    var h := Feed(chunks, maxFrame);
    BytesConserved(chunks, maxFrame);
    DeframeOfWire(h.pieces, h.buffer, maxFrame);
  }

  lemma {:induction false} CleanDrainKeeps(s: string, maxFrame: nat)
    requires Clean(s, maxFrame)
    ensures NoDiscards(Drain(s, maxFrame).pieces)
    decreases |s|
  {
    match Front(s, maxFrame)
    case Whole(p) =>
      var tail := s[|Bytes(p)|..];
      if !p.KeepAlive? {
        CleanDrainKeeps(tail, maxFrame);
        assert Drain(s, maxFrame).pieces[1..] == Drain(tail, maxFrame).pieces;
      }
    case _ =>
  }

  /** A prefix of a clean stream is clean. */
  lemma CleanPrefix(s: string, x: string, maxFrame: nat)
    requires Clean(s + x, maxFrame)
    ensures Clean(s, maxFrame)
  {
    var c := Deframe(s, maxFrame);
    DeframeConserves(s, maxFrame);
    Associative(Wire(c.pieces), c.rest, x);
    DeframeOfWire(c.pieces, c.rest + x, maxFrame);
    if Front(c.rest, maxFrame).OverLimit? {
      FrontStable(c.rest, x, maxFrame);
    }
  }

  /** A clean stream loses nothing, however it is split. */
  lemma {:induction false} CleanFeedKeeps(chunks: seq<string>, maxFrame: nat)
    requires Clean(Concat(chunks), maxFrame)
    ensures NoDiscards(Feed(chunks, maxFrame).pieces)
  {
    if chunks == [] {
    } else {
      var before, chunk := chunks[..|chunks| - 1], chunks[|chunks| - 1];
      var g := Feed(before, maxFrame);
      CleanPrefix(Concat(before), chunk, maxFrame);
      CleanFeedKeeps(before, maxFrame);
      BytesConserved(before, maxFrame);
      Associative(Wire(g.pieces), g.buffer, chunk);
      DeframeOfWire(g.pieces, g.buffer + chunk, maxFrame);
      CleanDrainKeeps(g.buffer + chunk, maxFrame);
    }
  }

  /** Read-boundary independence: for a stream with no frame over the limit, at every point
      the frames emitted so far followed by the reference frames of the buffer are the reference
      frames of all bytes received. A split alters and reorders none; whether one stays behind in
      the buffer is said below. */
  lemma ReadBoundaryIndependence(chunks: seq<string>, s: string, later: string, maxFrame: nat)
    requires IsSplit(chunks, s)
    requires Clean(s + later, maxFrame)
    ensures var h := Feed(chunks, maxFrame);
            && FramesOf(h.pieces) + FramesOf(Deframe(h.buffer, maxFrame).pieces)
            == FramesOf(Deframe(s, maxFrame).pieces)
  {
    var h := Feed(chunks, maxFrame);
    CleanPrefix(s, later, maxFrame);
    CleanFeedKeeps(chunks, maxFrame);
    KeptIsReference(chunks, maxFrame);
    FramesConcat(h.pieces, Deframe(h.buffer, maxFrame).pieces);
  }

  // ----- which whole frames stay behind in the buffer -----

  /** A frame stands somewhere behind a zero-length header. */
  ghost predicate FrameBehindKeepAlive(pieces: seq<Piece>) {
    exists i, j :: 0 <= i < j < |pieces| && pieces[i].KeepAlive? && IsFrame(pieces[j])
  }

  /** A drain that discards nothing and meets no zero-length header leaves no whole piece. */
  lemma {:induction false} DrainStops(b: string, maxFrame: nat)
    requires NoDiscards(Drain(b, maxFrame).pieces)
    ensures KeepAlive in Drain(b, maxFrame).pieces || Front(Drain(b, maxFrame).rest, maxFrame).Incomplete?
    decreases |b|
  {
    match Front(b, maxFrame)
    case Incomplete =>
    case OverLimit =>
      assert Drain(b, maxFrame).pieces[0].Discarded?;
    case Whole(p) =>
      if !p.KeepAlive? {
        var tail := b[|Bytes(p)|..];
        NoDiscardsConcat([p], Drain(tail, maxFrame).pieces);
        DrainStops(tail, maxFrame);
      }
  }

  lemma FeedStops(chunks: seq<string>, maxFrame: nat)
    requires NoDiscards(Feed(chunks, maxFrame).pieces)
    ensures var h := Feed(chunks, maxFrame);
            KeepAlive in h.pieces || Front(h.buffer, maxFrame).Incomplete?
  {
    if chunks != [] {
      var g, b := Feed(chunks[..|chunks| - 1], maxFrame), chunks[|chunks| - 1];
      NoDiscardsConcat(g.pieces, Drain(g.buffer + b, maxFrame).pieces);
      DrainStops(g.buffer + b, maxFrame);
    }
  }

  lemma {:induction false} NoFramesAmong(pieces: seq<Piece>)
    requires forall i :: 0 <= i < |pieces| ==> !IsFrame(pieces[i])
    ensures FramesOf(pieces) == []
  {
    if pieces == [] {
    } else {
      assert forall i :: 0 <= i < |pieces[1..]| ==> pieces[1..][i] == pieces[i + 1];
      NoFramesAmong(pieces[1..]);
    }
  }

  lemma NothingBehind(a: seq<Piece>, b: seq<Piece>)
    requires KeepAlive in a && !FrameBehindKeepAlive(a + b)
    ensures FramesOf(b) == []
  {
    var i :| 0 <= i < |a| && a[i] == KeepAlive;
    assert (a + b)[i] == KeepAlive;
    forall j | 0 <= j < |b|
      ensures !IsFrame(b[j])
    {
      assert (a + b)[|a| + j] == b[j];
    }
    NoFramesAmong(b);
  }

  /** For a stream with no frame over the limit and none behind a zero-length header, every split
      hands on every frame: none is left in the buffer. */
  lemma AllHandedOn(chunks: seq<string>, maxFrame: nat)
    requires Clean(Concat(chunks), maxFrame)
    requires !FrameBehindKeepAlive(Deframe(Concat(chunks), maxFrame).pieces)
    ensures FramesOf(Feed(chunks, maxFrame).pieces) == FramesOf(Deframe(Concat(chunks), maxFrame).pieces)
  {
    var h := Feed(chunks, maxFrame);
    var left := Deframe(h.buffer, maxFrame).pieces;
    CleanFeedKeeps(chunks, maxFrame);
    KeptIsReference(chunks, maxFrame);
    FeedStops(chunks, maxFrame);
    if KeepAlive in h.pieces {
      NothingBehind(h.pieces, left);
    }
    FramesConcat(h.pieces, left);
    assert FramesOf(h.pieces) + [] == FramesOf(h.pieces);
  }

  /** A drain takes nothing behind a zero-length header. */
  lemma {:induction false} DrainLeavesBehind(b: string, maxFrame: nat)
    requires FrameBehindKeepAlive(Deframe(b, maxFrame).pieces)
    ensures |FramesOf(Drain(b, maxFrame).pieces)| < |FramesOf(Deframe(b, maxFrame).pieces)|
    decreases |b|
  {
    var p := Front(b, maxFrame).piece;
    var tail := b[|Bytes(p)|..];
    var behind := Deframe(tail, maxFrame).pieces;
    DrainWhole(b, maxFrame);
    FramesCons(p, behind);
    if p.KeepAlive? {
      FramesCons(p, []);
      BehindFirst(p, behind);
    } else {
      StillBehindKeepAlive(p, behind);
      DrainLeavesBehind(tail, maxFrame);
      FramesCons(p, Drain(tail, maxFrame).pieces);
    }
  }

  lemma FramesCons(p: Piece, pieces: seq<Piece>)
    ensures FramesOf([p] + pieces) == (if IsFrame(p) then [FrameOf(p)] else []) + FramesOf(pieces)
  {
    assert ([p] + pieces)[1..] == pieces;
  }

  lemma BehindFirst(p: Piece, pieces: seq<Piece>)
    requires FrameBehindKeepAlive([p] + pieces)
    ensures |FramesOf(pieces)| > 0
  {
    var all := [p] + pieces;
    var i, j :| 0 <= i < j < |all| && all[i].KeepAlive? && IsFrame(all[j]);
    FrameCounts(pieces, j - 1);
  }

  lemma StillBehindKeepAlive(p: Piece, pieces: seq<Piece>)
    requires !p.KeepAlive? && FrameBehindKeepAlive([p] + pieces)
    ensures FrameBehindKeepAlive(pieces)
  {
    var all := [p] + pieces;
    var i, j :| 0 <= i < j < |all| && all[i].KeepAlive? && IsFrame(all[j]);
    assert pieces[i - 1].KeepAlive? && IsFrame(pieces[j - 1]);
  }

  lemma {:induction false} FrameCounts(pieces: seq<Piece>, i: nat)
    requires i < |pieces| && IsFrame(pieces[i])
    ensures |FramesOf(pieces)| > 0
  {
    if i == 0 {
    } else {
      FrameCounts(pieces[1..], i - 1);
    }
  }

  /** Every split hands on every frame of the stream. */
  ghost predicate EverySplitHandsOn(s: string, maxFrame: nat) {
    forall chunks :: IsSplit(chunks, s) ==>
      FramesOf(Feed(chunks, maxFrame).pieces) == FramesOf(Deframe(s, maxFrame).pieces)
  }

  /** A stream of at most one read with no frame over the limit has all its frames handed on by
      every split exactly when no frame stands behind a zero-length header. */
  lemma OneReadHandsOnIff(s: string, maxFrame: nat)
    requires Clean(s, maxFrame) && 1 <= |s| <= READ_SIZE
    ensures EverySplitHandsOn(s, maxFrame) <==> !FrameBehindKeepAlive(Deframe(s, maxFrame).pieces)
  {
    if FrameBehindKeepAlive(Deframe(s, maxFrame).pieces) {
      FeedOne(s, maxFrame);
      assert IsSplit([s], s);
      DrainLeavesBehind(s, maxFrame);
    } else {
      forall chunks | IsSplit(chunks, s)
        ensures FramesOf(Feed(chunks, maxFrame).pieces) == FramesOf(Deframe(s, maxFrame).pieces)
      {
        AllHandedOn(chunks, maxFrame);
      }
    }
  }

  /** A frame that shares its read with a keep-alive is whole in the buffer, and not handed on. */
  lemma FrameStaysBehind()
    ensures Clean("00000001A", 100)
    ensures Feed(["00000001A"], 100) == History([KeepAlive], "0001A")
    ensures FramesOf(Deframe("00000001A", 100).pieces) == [Frame("A", true)]
  {
    var frame := Prefixed("A");
    OneFrameDeframes();
    assert Deframe("00000001A", 100) == Cut([KeepAlive, frame], "") by {
      assert Bytes(KeepAlive) + "0001A" == "00000001A";
      DeframeStep(KeepAlive, "0001A", 100);
    }
    assert Drain("00000001A", 100) == Cut([KeepAlive], "0001A") by {
      assert Bytes(KeepAlive) + "0001A" == "00000001A";
      DrainOfKeepAlive("0001A", 100);
    }
    FeedOne("00000001A", 100);
    assert FramesOf([KeepAlive, frame]) == [Frame("A", true)] by {
      FramesCons(KeepAlive, [frame]);
      OnePiece(frame);
    }
  }

  lemma OneFrameDeframes()
    ensures Deframe("0001A", 100) == Cut([Prefixed("A")], "")
  {
    var frame := Prefixed("A");
    assert Digits(1, 4) == "0001";
    assert Bytes(frame) + "" == "0001A";
    assert Deframe("", 100) == Cut([], "");
    DeframeStep(frame, "", 100);
  }

  lemma DrainOfKeepAlive(x: string, maxFrame: nat)
    ensures Drain(Bytes(KeepAlive) + x, maxFrame) == Cut([KeepAlive], x)
  {
    FrontOfSound(KeepAlive, x, maxFrame);
    assert (Bytes(KeepAlive) + x)[4..] == x;
  }

  // ----- exactly when no split loses a byte -----

  /** The stream arriving one byte at a time. */
  function ByteByByte(s: string): (chunks: seq<string>)
    ensures |chunks| == |s|
    ensures forall i :: 0 <= i < |chunks| ==> |chunks[i]| == 1
  {
    if s == "" then [] else ByteByByte(s[..|s| - 1]) + [[s[|s| - 1]]]
  }

  lemma {:induction false} ByteByByteSplits(s: string)
    ensures IsSplit(ByteByByte(s), s)
  {
    if s == "" {
    } else {
      var init := s[..|s| - 1];
      ByteByByteSplits(init);
      var chunks := ByteByByte(s);
      assert chunks[..|chunks| - 1] == ByteByByte(init);
      assert s == init + [s[|s| - 1]];
    }
  }

  /** A piece completed by its last byte leaves nothing behind it. */
  lemma LastByteCompletes(b: string, c: char, maxFrame: nat)
    requires Front(b, maxFrame).Incomplete? && Front(b + [c], maxFrame).Whole?
    ensures Bytes(Front(b + [c], maxFrame).piece) == b + [c]
  {
    var p := Front(b + [c], maxFrame).piece;
    if |Bytes(p)| <= |b| {
      assert b == Bytes(p) + b[|Bytes(p)|..];
      FrontOfSound(p, b[|Bytes(p)|..], maxFrame);
    }
  }

  lemma {:induction false} ByteByByteFinds(s: string, maxFrame: nat)
    ensures var h := Feed(ByteByByte(s), maxFrame);
            NoDiscards(h.pieces) ==> Front(h.buffer, maxFrame).Incomplete?
  {
    if s == "" {
    } else {
      var init, c := s[..|s| - 1], s[|s| - 1];
      var chunks := ByteByByte(s);
      assert chunks[..|chunks| - 1] == ByteByByte(init);
      ByteByByteFinds(init, maxFrame);
      OneMoreByte(Feed(ByteByByte(init), maxFrame), c, maxFrame);
    }
  }

  lemma OneMoreByte(g: History, c: char, maxFrame: nat)
    requires NoDiscards(g.pieces) ==> Front(g.buffer, maxFrame).Incomplete?
    ensures var h := Read(g, [c], maxFrame);
            NoDiscards(h.pieces) ==> Front(h.buffer, maxFrame).Incomplete?
  {
    var b := g.buffer + [c];
    var d := Drain(b, maxFrame);
    NoDiscardsConcat(g.pieces, d.pieces);
    match Front(b, maxFrame)
    case Incomplete =>
    case OverLimit =>
      assert d.pieces[0].Discarded?;
    case Whole(p) =>
      if NoDiscards(g.pieces) {
        LastByteCompletes(g.buffer, c, maxFrame);
        assert b[|Bytes(p)|..] == "";
        assert Drain("", maxFrame) == Cut([], "");
      }
  }

  ghost predicate EverySplitKeepsAll(s: string, maxFrame: nat) {
    forall chunks :: IsSplit(chunks, s) ==> NoDiscards(Feed(chunks, maxFrame).pieces)
  }

  /** Every way of splitting the stream into reads keeps all its bytes exactly when no frame
      of the stream is over the limit. */
  lemma NothingLostIffClean(s: string, maxFrame: nat)
    ensures EverySplitKeepsAll(s, maxFrame) <==> Clean(s, maxFrame)
  {
    if Clean(s, maxFrame) {
      forall chunks | IsSplit(chunks, s)
        ensures NoDiscards(Feed(chunks, maxFrame).pieces)
      {
        CleanFeedKeeps(chunks, maxFrame);
      }
    } else {
      ByteByByteSplits(s);
      ByteByByteFinds(s, maxFrame);
      if NoDiscards(Feed(ByteByByte(s), maxFrame).pieces) {
        KeptIsReference(ByteByByte(s), maxFrame);
      }
    }
  }

  // ----- which streams give the same frames under every split -----

  /** The frames handed on so far and those that the buffer holds. */
  function Outcome(h: History, maxFrame: nat): seq<Frame> {
    FramesOf(h.pieces) + FramesOf(Deframe(h.buffer, maxFrame).pieces)
  }

  /** Every split yields the frames of the stream cut whole. */
  ghost predicate SameUnderEverySplit(s: string, maxFrame: nat) {
    forall chunks :: IsSplit(chunks, s) ==>
      Outcome(Feed(chunks, maxFrame), maxFrame) == FramesOf(Deframe(s, maxFrame).pieces)
  }

  /** How many bytes decide that the front is over the limit. */
  function Deciding(s: string): nat {
    if HasHeader(s) then 4 else FIXED_FRAME_SIZE
  }

  /** What is left of a stream at its first frame over the limit. */
  function Refused(s: string, maxFrame: nat): string {
    Deframe(s, maxFrame).rest
  }

  /** The pieces of `b` up to a frame over the limit, and all bytes from there thrown away. */
  ghost predicate EndsInDiscard(pieces: seq<Piece>, b: string, maxFrame: nat) {
    && pieces != []
    && var kept, last := pieces[..|pieces| - 1], pieces[|pieces| - 1];
       && last.Discarded? && Front(last.bytes, maxFrame).OverLimit?
       && AllSound(kept, maxFrame) && b == Wire(kept) + last.bytes
  }

  /** A drain that throws bytes away does so at the first frame over the limit. */
  lemma {:induction false} DrainDiscards(b: string, maxFrame: nat)
    requires !NoDiscards(Drain(b, maxFrame).pieces)
    ensures Drain(b, maxFrame).rest == ""
    ensures EndsInDiscard(Drain(b, maxFrame).pieces, b, maxFrame)
    decreases |b|
  {
    match Front(b, maxFrame)
    case Incomplete =>
    case OverLimit =>
      assert [Discarded(b)][..0] == [] && b == Wire([]) + b;
    case Whole(p) =>
      DrainWhole(b, maxFrame);
      var tail := b[|Bytes(p)|..];
      var c := if p.KeepAlive? then Cut([], tail) else Drain(tail, maxFrame);
      NoDiscardsConcat([p], c.pieces);
      DrainDiscards(tail, maxFrame);
      DiscardsBehind(p, tail, c.pieces, maxFrame);
  }

  lemma DiscardsBehind(p: Piece, tail: string, pieces: seq<Piece>, maxFrame: nat)
    requires Sound(p, maxFrame) && EndsInDiscard(pieces, tail, maxFrame)
    ensures EndsInDiscard([p] + pieces, Bytes(p) + tail, maxFrame)
  {
    var all, kept := [p] + pieces, pieces[..|pieces| - 1];
    assert all[..|all| - 1] == [p] + kept;
    WireCons(p, kept);
    Associative(Bytes(p), Wire(kept), pieces[|pieces| - 1].bytes);
  }

  /** A stream with no frame at its front keeps its frames away from a drain of any prefix, and what
      the drain leaves is a suffix of the prefix. */
  lemma SilentDrain(b: string, z: string, maxFrame: nat)
    requires FramesOf(Deframe(b + z, maxFrame).pieces) == []
    ensures var c := Drain(b, maxFrame);
            && FramesOf(c.pieces) == []
            && |c.rest| <= |b| && c.rest == b[|b| - |c.rest|..]
  {
    if Front(b, maxFrame).Whole? {
      var p := Front(b, maxFrame).piece;
      FrontStable(b, z, maxFrame);
      FramesConcat([p], Deframe((b + z)[|Bytes(p)|..], maxFrame).pieces);
      OnePiece(p);
    } else if Front(b, maxFrame).OverLimit? {
      OnePiece(Discarded(b));
    }
  }

  /** Nothing of the bytes `x` has been discarded. */
  ghost predicate Intact(h: History, x: string, maxFrame: nat) {
    NoDiscards(h.pieces) && SoundOrDiscarded(h.pieces, maxFrame) && x == Wire(h.pieces) + h.buffer
  }

  /** Of the prefix `x` of a stream `s` the frames before the first one over the limit have been
      handed on and no others, and the buffer lies behind the bytes that decide the refusal. */
  ghost predicate Behind(h: History, x: string, s: string, maxFrame: nat) {
    var rest := Refused(s, maxFrame);
    && FramesOf(h.pieces) == FramesOf(Deframe(s, maxFrame).pieces)
    && |h.buffer| <= |x| && h.buffer == x[|x| - |h.buffer|..]
    && |s| - |rest| + Deciding(rest) <= |x| - |h.buffer|
  }

  lemma StillIntact(h: History, x: string, chunk: string, maxFrame: nat)
    requires Intact(h, x, maxFrame) && NoDiscards(Drain(h.buffer + chunk, maxFrame).pieces)
    ensures Intact(Read(h, chunk, maxFrame), x + chunk, maxFrame)
  {
    ReadConserves(h, x, chunk, maxFrame);
    NoDiscardsConcat(h.pieces, Drain(h.buffer + chunk, maxFrame).pieces);
  }

  lemma FirstDiscard(h: History, x: string, chunk: string, z: string, maxFrame: nat)
    requires Intact(h, x, maxFrame) && !NoDiscards(Drain(h.buffer + chunk, maxFrame).pieces)
    ensures Behind(Read(h, chunk, maxFrame), x + chunk, x + chunk + z, maxFrame)
  {
    var b := h.buffer + chunk;
    var c := Drain(b, maxFrame);
    DrainDiscards(b, maxFrame);
    var kept, t := c.pieces[..|c.pieces| - 1], c.pieces[|c.pieces| - 1].bytes;
    var pieces := h.pieces + kept;
    assert x + chunk == Wire(pieces) + t by {
      Associative(Wire(h.pieces), h.buffer, chunk);
      WireConcat(h.pieces, kept);
      Associative(Wire(h.pieces), Wire(kept), t);
    }
    KeptSound(h.pieces, kept, maxFrame);
    DiscardedFront(pieces, t, z, maxFrame);
    assert FramesOf(h.pieces + c.pieces) == FramesOf(pieces) by {
      LastDiscarded(h.pieces, c.pieces);
    }
  }

  lemma KeptSound(a: seq<Piece>, b: seq<Piece>, maxFrame: nat)
    requires NoDiscards(a) && SoundOrDiscarded(a, maxFrame) && AllSound(b, maxFrame)
    ensures AllSound(a + b, maxFrame)
  {
  }

  lemma LastDiscarded(a: seq<Piece>, b: seq<Piece>)
    requires b != [] && b[|b| - 1].Discarded?
    ensures FramesOf(a + b) == FramesOf(a + b[..|b| - 1])
  {
    var kept, last := b[..|b| - 1], b[|b| - 1];
    assert b == kept + [last];
    Associative(a, kept, [last]);
    FramesConcat(a + kept, [last]);
    OnePiece(last);
    assert FramesOf(a + kept) + [] == FramesOf(a + kept);
  }

  lemma DiscardedFront(pieces: seq<Piece>, t: string, z: string, maxFrame: nat)
    requires AllSound(pieces, maxFrame) && Front(t, maxFrame).OverLimit?
    ensures Deframe(Wire(pieces) + t + z, maxFrame) == Cut(pieces, t + z)
    ensures Deciding(t + z) <= |t|
  {
    Associative(Wire(pieces), t, z);
    DeframeOfWire(pieces, t + z, maxFrame);
    FrontStable(t, z, maxFrame);
    assert pieces + [] == pieces;
    assert (t + z)[..4] == t[..4];
  }

  /** No frame stands, at once or behind keep-alives, at any byte of the rest after those that
      decide its refusal. */
  ghost predicate NoFrameBehind(s: string, maxFrame: nat) {
    var rest := Refused(s, maxFrame);
    forall q :: Deciding(rest) <= q <= |rest| ==> FramesOf(Deframe(rest[q..], maxFrame).pieces) == []
  }

  lemma SilentBehind(s: string, start: nat, maxFrame: nat)
    requires NoFrameBehind(s, maxFrame)
    requires |s| - |Refused(s, maxFrame)| + Deciding(Refused(s, maxFrame)) <= start <= |s|
    ensures FramesOf(Deframe(s[start..], maxFrame).pieces) == []
  {
    var c := Deframe(s, maxFrame);
    DeframeConserves(s, maxFrame);
    SuffixOfRest(Wire(c.pieces), c.rest, start);
  }

  lemma SuffixOfRest(front: string, rest: string, start: nat)
    requires |front| <= start <= |front| + |rest|
    ensures (front + rest)[start..] == rest[start - |front|..]
  {
  }

  lemma StillBehind(h: History, x: string, chunk: string, z: string, s: string, maxFrame: nat)
    requires Behind(h, x, s, maxFrame)
    requires FramesOf(Deframe(h.buffer + chunk + z, maxFrame).pieces) == []
    ensures Behind(Read(h, chunk, maxFrame), x + chunk, s, maxFrame)
  {
    SilentDrain(h.buffer + chunk, z, maxFrame);
    BehindMoves(h, x, chunk, s, Drain(h.buffer + chunk, maxFrame), maxFrame);
  }

  lemma SilentBuffer(h: History, x: string, chunk: string, z: string, maxFrame: nat)
    requires NoFrameBehind(x + chunk + z, maxFrame) && Behind(h, x, x + chunk + z, maxFrame)
    ensures FramesOf(Deframe(h.buffer + chunk + z, maxFrame).pieces) == []
  {
    SuffixExtended(x, chunk, z, |x| - |h.buffer|);
    SilentBehind(x + chunk + z, |x| - |h.buffer|, maxFrame);
  }

  lemma BehindMoves(h: History, x: string, chunk: string, s: string, c: Cut, maxFrame: nat)
    requires Behind(h, x, s, maxFrame) && FramesOf(c.pieces) == []
    requires var b := h.buffer + chunk; |c.rest| <= |b| && c.rest == b[|b| - |c.rest|..]
    ensures Behind(History(h.pieces + c.pieces, c.rest), x + chunk, s, maxFrame)
  {
    SuffixMoves(x, h.buffer, chunk, c.rest);
    NoMoreFrames(h.pieces, c.pieces);
  }

  lemma NoMoreFrames(a: seq<Piece>, b: seq<Piece>)
    requires FramesOf(b) == []
    ensures FramesOf(a + b) == FramesOf(a)
  {
    FramesConcat(a, b);
    assert FramesOf(a) + [] == FramesOf(a);
  }

  lemma SuffixMoves(x: string, buffer: string, chunk: string, r: string)
    requires |buffer| <= |x| && buffer == x[|x| - |buffer|..]
    requires |r| <= |buffer + chunk| && r == (buffer + chunk)[|buffer + chunk| - |r|..]
    ensures |r| <= |x + chunk| && r == (x + chunk)[|x + chunk| - |r|..]
  {
    SuffixExtended(x, chunk, "", |x| - |buffer|);
    SuffixOfSuffix(x + chunk, buffer + chunk, r);
  }

  lemma SuffixExtended(x: string, chunk: string, z: string, start: nat)
    requires start <= |x|
    ensures (x + chunk)[start..] == x[start..] + chunk
    ensures (x + chunk + z)[start..] == x[start..] + chunk + z
  {
  }

  lemma SuffixOfSuffix(x: string, b: string, r: string)
    requires |r| <= |b| <= |x| && b == x[|x| - |b|..] && r == b[|b| - |r|..]
    ensures r == x[|x| - |r|..]
  {
  }

  lemma {:induction false} IntactOrBehind(chunks: seq<string>, z: string, maxFrame: nat)
    requires NoFrameBehind(Concat(chunks) + z, maxFrame)
    ensures var h, x := Feed(chunks, maxFrame), Concat(chunks);
            Intact(h, x, maxFrame) || Behind(h, x, x + z, maxFrame)
  {
    if chunks == [] {
    } else {
      var before, chunk := chunks[..|chunks| - 1], chunks[|chunks| - 1];
      var g, x := Feed(before, maxFrame), Concat(before);
      assert x + (chunk + z) == x + chunk + z;
      IntactOrBehind(before, chunk + z, maxFrame);
      if !Intact(g, x, maxFrame) {
        SilentBuffer(g, x, chunk, z, maxFrame);
        StillBehind(g, x, chunk, z, x + chunk + z, maxFrame);
      } else if NoDiscards(Drain(g.buffer + chunk, maxFrame).pieces) {
        StillIntact(g, x, chunk, maxFrame);
      } else {
        FirstDiscard(g, x, chunk, z, maxFrame);
      }
    }
  }

  /** If no frame stands behind the first frame over the limit, every split yields the frames of
      the stream cut whole: throwing bytes away costs none. */
  lemma NoFrameBehindSuffices(s: string, maxFrame: nat)
    requires NoFrameBehind(s, maxFrame)
    ensures SameUnderEverySplit(s, maxFrame)
  {
    forall chunks | IsSplit(chunks, s)
      ensures Outcome(Feed(chunks, maxFrame), maxFrame) == FramesOf(Deframe(s, maxFrame).pieces)
    {
      SilentOutcome(chunks, maxFrame);
    }
  }

  lemma SilentOutcome(chunks: seq<string>, maxFrame: nat)
    requires NoFrameBehind(Concat(chunks), maxFrame)
    ensures Outcome(Feed(chunks, maxFrame), maxFrame) == FramesOf(Deframe(Concat(chunks), maxFrame).pieces)
  {
    var h, s := Feed(chunks, maxFrame), Concat(chunks);
    assert Intact(h, s, maxFrame) || Behind(h, s, s, maxFrame) by {
      assert s + "" == s;
      IntactOrBehind(chunks, "", maxFrame);
    }
    if Intact(h, s, maxFrame) {
      IntactOutcome(chunks, maxFrame);
    } else {
      BehindOutcome(h, s, maxFrame);
    }
  }

  lemma BehindOutcome(h: History, s: string, maxFrame: nat)
    requires NoFrameBehind(s, maxFrame) && Behind(h, s, s, maxFrame)
    ensures Outcome(h, maxFrame) == FramesOf(Deframe(s, maxFrame).pieces)
  {
    SilentBehind(s, |s| - |h.buffer|, maxFrame);
    assert FramesOf(h.pieces) + [] == FramesOf(h.pieces);
  }

  lemma IntactOutcome(chunks: seq<string>, maxFrame: nat)
    requires NoDiscards(Feed(chunks, maxFrame).pieces)
    ensures Outcome(Feed(chunks, maxFrame), maxFrame) == FramesOf(Deframe(Concat(chunks), maxFrame).pieces)
  {
    var h := Feed(chunks, maxFrame);
    KeptIsReference(chunks, maxFrame);
    FramesConcat(h.pieces, Deframe(h.buffer, maxFrame).pieces);
  }

  // ----- for streams of any length -----

  function KeepAlives(pieces: seq<Piece>): nat {
    if pieces == [] then 0
    else KeepAlives(pieces[..|pieces| - 1]) + if pieces[|pieces| - 1].KeepAlive? then 1 else 0
  }

  lemma {:induction false} KeepAlivesConcat(a: seq<Piece>, b: seq<Piece>)
    ensures KeepAlives(a + b) == KeepAlives(a) + KeepAlives(b)
  {
    if b == [] {
      assert a + b == a;
    } else {
      Init(a, b);
      KeepAlivesConcat(a, b[..|b| - 1]);
    }
  }

  /** From the last byte of the keep-alive at `a` on, no more reads are needed than there are
      keep-alives from there to the one at `i`, and a frame stands behind that one. */
  ghost predicate DelayedPast(pieces: seq<Piece>, length: nat, a: nat, i: nat) {
    && a <= i < |pieces| && pieces[a].KeepAlive? && pieces[i].KeepAlive?
    && (exists j :: i < j < |pieces| && IsFrame(pieces[j]))
    && length - |Wire(pieces[..a])| - 3 <= READ_SIZE * KeepAlives(pieces[a..i + 1])
  }

  ghost predicate CanBeDelayed(pieces: seq<Piece>, length: nat) {
    exists a: nat, i: nat :: DelayedPast(pieces, length, a, i)
  }

  /** A drain takes at most one keep-alive, as its last piece. */
  lemma {:induction false} DrainKeepAlives(b: string, maxFrame: nat)
    ensures var pieces := Drain(b, maxFrame).pieces;
            && KeepAlives(pieces) <= 1
            && (KeepAlives(pieces) == 1 ==> pieces != [] && pieces[|pieces| - 1].KeepAlive?)
            && (KeepAlives(pieces) == 0 && NoDiscards(pieces) ==> Front(Drain(b, maxFrame).rest, maxFrame).Incomplete?)
    decreases |b|
  {
    match Front(b, maxFrame)
    case Incomplete =>
    case OverLimit =>
      OneKeepAlive(Discarded(b));
      assert [Discarded(b)][0].Discarded?;
    case Whole(p) =>
      OneKeepAlive(p);
      if !p.KeepAlive? {
        var tail := b[|Bytes(p)|..];
        var pieces := Drain(tail, maxFrame).pieces;
        DrainWhole(b, maxFrame);
        DrainKeepAlives(tail, maxFrame);
        KeepAlivesConcat([p], pieces);
        NoDiscardsConcat([p], pieces);
      }
  }

  lemma OneKeepAlive(p: Piece)
    ensures KeepAlives([p]) == if p.KeepAlive? then 1 else 0
  {
    assert [p][..0] == [];
  }

  /** What any reads keep: nothing whole is left in the buffer, or every read since the one that
      completed some keep-alive has stopped at one. */
  ghost predicate Delayed(h: History, length: nat, maxFrame: nat) {
    || Front(h.buffer, maxFrame).Incomplete?
    || exists a: nat :: DelayedSince(h, length, a)
  }

  ghost predicate DelayedSince(h: History, length: nat, a: nat) {
    && a < |h.pieces| && h.pieces[a].KeepAlive? && h.pieces[|h.pieces| - 1].KeepAlive?
    && length - |Wire(h.pieces[..a])| - 3 <= READ_SIZE * KeepAlives(h.pieces[a..])
  }

  lemma ReadDelays(h: History, x: string, chunk: string, maxFrame: nat)
    requires Intact(h, x, maxFrame) && Delayed(h, |x|, maxFrame) && |chunk| <= READ_SIZE
    requires NoDiscards(Drain(h.buffer + chunk, maxFrame).pieces)
    ensures Delayed(Read(h, chunk, maxFrame), |x + chunk|, maxFrame)
  {
    var c := Drain(h.buffer + chunk, maxFrame);
    DrainKeepAlives(h.buffer + chunk, maxFrame);
    if KeepAlives(c.pieces) == 1 {
      if Front(h.buffer, maxFrame).Incomplete? {
        FirstDelay(h, x, chunk, c, maxFrame);
      } else {
        var a: nat :| DelayedSince(h, |x|, a);
        NextDelay(h, x, chunk, c, a);
      }
    }
  }

  lemma NextDelay(h: History, x: string, chunk: string, c: Cut, a: nat)
    requires DelayedSince(h, |x|, a) && |chunk| <= READ_SIZE
    requires KeepAlives(c.pieces) == 1 && c.pieces != [] && c.pieces[|c.pieces| - 1].KeepAlive?
    ensures DelayedSince(History(h.pieces + c.pieces, c.rest), |x + chunk|, a)
  {
    var pieces := h.pieces + c.pieces;
    assert pieces[..a] == h.pieces[..a] && pieces[a..] == h.pieces[a..] + c.pieces;
    KeepAlivesConcat(h.pieces[a..], c.pieces);
  }

  lemma FirstDelay(h: History, x: string, chunk: string, c: Cut, maxFrame: nat)
    requires Intact(h, x, maxFrame) && Front(h.buffer, maxFrame).Incomplete? && |chunk| <= READ_SIZE
    requires c == Drain(h.buffer + chunk, maxFrame) && NoDiscards(c.pieces)
    requires c.pieces != [] && c.pieces[|c.pieces| - 1].KeepAlive?
    ensures DelayedSince(History(h.pieces + c.pieces, c.rest), |x + chunk|, |h.pieces| + |c.pieces| - 1)
  {
    var kept := c.pieces[..|c.pieces| - 1];
    DrainConserves(h.buffer + chunk, maxFrame);
    NotCompleteBefore(h.buffer, chunk, c, maxFrame);
    WireConcat(h.pieces, kept);
    AllButLast(h.pieces, c.pieces);
    DelayStarts(h.pieces + c.pieces, h.pieces + kept, c.rest, |x + chunk|);
  }

  lemma AllButLast<T>(a: seq<T>, b: seq<T>)
    requires b != []
    ensures a + b == (a + b[..|b| - 1]) + [b[|b| - 1]]
  {
  }

  lemma DelayStarts(pieces: seq<Piece>, kept: seq<Piece>, rest: string, length: nat)
    requires |pieces| == |kept| + 1 && pieces == kept + [pieces[|kept|]] && pieces[|kept|].KeepAlive?
    requires length - |Wire(kept)| - 3 <= READ_SIZE
    ensures DelayedSince(History(pieces, rest), length, |kept|)
  {
    assert pieces[..|kept|] == kept && pieces[|kept|..] == [pieces[|kept|]];
    OneKeepAlive(pieces[|kept|]);
  }

  /** A buffer with nothing whole at its front holds none of the pieces that a read completes. */
  lemma NotCompleteBefore(b: string, chunk: string, c: Cut, maxFrame: nat)
    requires Front(b, maxFrame).Incomplete? && c.pieces != [] && c.pieces[|c.pieces| - 1].KeepAlive?
    requires b + chunk == Wire(c.pieces) + c.rest && SoundOrDiscarded(c.pieces, maxFrame) && NoDiscards(c.pieces)
    ensures |b| <= |Wire(c.pieces[..|c.pieces| - 1])| + 3
  {
    var kept, last := c.pieces[..|c.pieces| - 1], c.pieces[|c.pieces| - 1];
    assert c.pieces == kept + [last];
    WireConcat(kept, [last]);
    WireCons(last, []);
    assert [last] + [] == [last];
    if |b| >= |Wire(c.pieces)| {
      var p := c.pieces[0];
      Associative(Bytes(p), Wire(c.pieces[1..]), c.rest);
      LongerPrefix(b, chunk, Bytes(p), Wire(c.pieces[1..]) + c.rest);
      FrontOfSound(p, b[|Bytes(p)|..], maxFrame);
    }
  }

  lemma LongerPrefix(b: string, chunk: string, x: string, y: string)
    requires b + chunk == x + y && |b| >= |x|
    ensures b == x + b[|x|..]
  {
    assert b == (x + y)[..|b|];
  }

  predicate ReadSized(chunks: seq<string>) {
    forall i :: 0 <= i < |chunks| ==> |chunks[i]| <= READ_SIZE
  }

  lemma {:induction false} FeedDelays(chunks: seq<string>, maxFrame: nat)
    requires ReadSized(chunks) && NoDiscards(Feed(chunks, maxFrame).pieces)
    ensures Delayed(Feed(chunks, maxFrame), |Concat(chunks)|, maxFrame)
  {
    if chunks == [] {
    } else {
      var before, chunk := chunks[..|chunks| - 1], chunks[|chunks| - 1];
      var g := Feed(before, maxFrame);
      NoDiscardsConcat(g.pieces, Drain(g.buffer + chunk, maxFrame).pieces);
      FeedDelays(before, maxFrame);
      BytesConserved(before, maxFrame);
      ReadDelays(g, Concat(before), chunk, maxFrame);
    }
  }

  /** A stream that no reads can delay past its end has every frame handed on. */
  lemma UndelayedHandsOn(chunks: seq<string>, maxFrame: nat)
    requires ReadSized(chunks) && Clean(Concat(chunks), maxFrame)
    requires !CanBeDelayed(Deframe(Concat(chunks), maxFrame).pieces, |Concat(chunks)|)
    ensures FramesOf(Feed(chunks, maxFrame).pieces) == FramesOf(Deframe(Concat(chunks), maxFrame).pieces)
  {
    var h, s := Feed(chunks, maxFrame), Concat(chunks);
    var left := Deframe(h.buffer, maxFrame).pieces;
    CleanFeedKeeps(chunks, maxFrame);
    KeptIsReference(chunks, maxFrame);
    FeedDelays(chunks, maxFrame);
    if !Front(h.buffer, maxFrame).Incomplete? {
      var a: nat :| DelayedSince(h, |s|, a);
      NoneLeft(h, left, |s|, a);
    }
    FramesConcat(h.pieces, left);
    assert FramesOf(h.pieces) + [] == FramesOf(h.pieces);
  }

  lemma NoneLeft(h: History, left: seq<Piece>, length: nat, a: nat)
    requires DelayedSince(h, length, a) && !CanBeDelayed(h.pieces + left, length)
    ensures FramesOf(left) == []
  {
    var all, i := h.pieces + left, |h.pieces| - 1;
    forall j | 0 <= j < |left|
      ensures !IsFrame(left[j])
    {
      assert all[|h.pieces| + j] == left[j];
      assert all[..a] == h.pieces[..a] && all[a..i + 1] == h.pieces[a..];
      if IsFrame(left[j]) {
        assert DelayedPast(all, length, a, i);
      }
    }
    NoFramesAmong(left);
  }

  /** Further reads take at most one keep-alive each, and end with one if each takes one. */
  lemma {:induction false} ReadsKeepAlives(a: seq<string>, b: seq<string>, maxFrame: nat)
    ensures var g, h := Feed(a, maxFrame), Feed(a + b, maxFrame);
            && KeepAlives(h.pieces) <= KeepAlives(g.pieces) + |b|
            && (b != [] && KeepAlives(h.pieces) == KeepAlives(g.pieces) + |b| ==>
                  h.pieces != [] && h.pieces[|h.pieces| - 1].KeepAlive?)
  {
    if b == [] {
      assert a + b == a;
    } else {
      var init, last := b[..|b| - 1], b[|b| - 1];
      Init(a, b);
      ReadsKeepAlives(a, init, maxFrame);
      var m := Feed(a + init, maxFrame);
      DrainKeepAlives(m.buffer + last, maxFrame);
      KeepAlivesConcat(m.pieces, Drain(m.buffer + last, maxFrame).pieces);
    }
  }

  /** A text in reads of full size. */
  function FullReads(t: string): (chunks: seq<string>)
    decreases |t|
  {
    if t == "" then [] else if |t| <= READ_SIZE then [t] else [t[..READ_SIZE]] + FullReads(t[READ_SIZE..])
  }

  lemma {:induction false} FullReadsSplit(t: string, m: nat)
    requires |t| <= READ_SIZE * m
    ensures IsSplit(FullReads(t), t) && |FullReads(t)| <= m
    decreases |t|
  {
    if t == "" {
    } else if |t| <= READ_SIZE {
      FeedOne(t, 0);
    } else {
      var first, rest := t[..READ_SIZE], t[READ_SIZE..];
      FullReadsSplit(rest, m - 1);
      FeedOne(first, 0);
      SplitConcat([first], FullReads(rest), first, rest);
      assert first + rest == t;
    }
  }

  /** Up to the last byte of the keep-alive byte by byte, and then in reads of full size. */
  function Stalling(pieces: seq<Piece>, tail: string): seq<string> {
    ByteByByte(Wire(pieces)) + ["000"] + FullReads(tail)
  }

  /** The keep-alives outlast the reads. */
  lemma DelayedStays(s: string, a: nat, i: nat, maxFrame: nat)
    requires Clean(s, maxFrame) && DelayedPast(Deframe(s, maxFrame).pieces, |s|, a, i)
    ensures !EverySplitHandsOn(s, maxFrame)
  {
    var pieces := Deframe(s, maxFrame).pieces;
    var front := pieces[..a];
    StallSplits(s, a, KeepAlives(pieces[a..i + 1]), maxFrame);
    var tail := s[|Wire(front)| + 3..];
    Stalled(pieces, front, tail, a, i, maxFrame);
    StalledSplit(s, Stalling(front, tail), |FullReads(tail)|, a, i, maxFrame);
  }

  lemma StalledSplit(s: string, chunks: seq<string>, readCount: nat, a: nat, i: nat, maxFrame: nat)
    requires Clean(s, maxFrame) && DelayedPast(Deframe(s, maxFrame).pieces, |s|, a, i) && IsSplit(chunks, s)
    requires Outlasted(Deframe(s, maxFrame).pieces, Feed(chunks, maxFrame).pieces, a, i, readCount)
    ensures !EverySplitHandsOn(s, maxFrame)
  {
    var pieces, h := Deframe(s, maxFrame).pieces, Feed(chunks, maxFrame);
    CleanFeedKeeps(chunks, maxFrame);
    KeptIsReference(chunks, maxFrame);
    var left := Deframe(h.buffer, maxFrame).pieces;
    NotPast(pieces, h.pieces, left, a, i, readCount);
    FramesConcat(h.pieces, left);
    assert |FramesOf(h.pieces)| < |FramesOf(pieces)|;
  }

  /** The reads from the keep-alive at `a` on have taken at most one keep-alive each, and end with
      one if each has taken one; and there are not more of them than keep-alives up to `i`. */
  ghost predicate Outlasted(pieces: seq<Piece>, taken: seq<Piece>, a: nat, i: nat, readCount: nat) {
    && a <= i < |pieces|
    && readCount <= KeepAlives(pieces[a..i + 1])
    && KeepAlives(taken) <= KeepAlives(pieces[..a]) + readCount
    && (readCount > 0 && KeepAlives(taken) == KeepAlives(pieces[..a]) + readCount ==>
          taken != [] && taken[|taken| - 1].KeepAlive?)
  }

  lemma Stalled(pieces: seq<Piece>, front: seq<Piece>, tail: string, a: nat, i: nat, maxFrame: nat)
    requires AllSound(front, maxFrame) && a <= i < |pieces| && front == pieces[..a]
    requires |FullReads(tail)| <= KeepAlives(pieces[a..i + 1])
    ensures Outlasted(pieces, Feed(Stalling(front, tail), maxFrame).pieces, a, i, |FullReads(tail)|)
  {
    StallStarts(front, maxFrame);
    ReadsKeepAlives(ByteByByte(Wire(front)) + ["000"], FullReads(tail), maxFrame);
  }

  lemma StallStarts(front: seq<Piece>, maxFrame: nat)
    requires AllSound(front, maxFrame)
    ensures Feed(ByteByByte(Wire(front)) + ["000"], maxFrame) == History(front, "000")
  {
    PiecesByteByByte(front, maxFrame);
    FeedConcat(ByteByByte(Wire(front)), ["000"], maxFrame);
    FeedOne("000", maxFrame);
    assert Drain("000", maxFrame) == Cut([], "000");
    assert front + [] == front;
  }

  lemma StallSplits(s: string, a: nat, m: nat, maxFrame: nat)
    requires a < |Deframe(s, maxFrame).pieces| && Deframe(s, maxFrame).pieces[a].KeepAlive?
    requires |s| - |Wire(Deframe(s, maxFrame).pieces[..a])| - 3 <= READ_SIZE * m
    ensures var front := Deframe(s, maxFrame).pieces[..a];
            && AllSound(front, maxFrame) && |Wire(front)| + 3 <= |s|
            && IsSplit(Stalling(front, s[|Wire(front)| + 3..]), s)
            && |FullReads(s[|Wire(front)| + 3..])| <= m
  {
    var front := Deframe(s, maxFrame).pieces[..a];
    var tail := StallTail(s, a, maxFrame);
    assert s[|Wire(front)| + 3..] == tail by {
      FromThirdByte(Wire(front), tail);
    }
    StallingSplits(front, tail, m);
  }

  /** The stream from the last byte of the keep-alive at `a` on. */
  lemma StallTail(s: string, a: nat, maxFrame: nat) returns (tail: string)
    requires a < |Deframe(s, maxFrame).pieces| && Deframe(s, maxFrame).pieces[a].KeepAlive?
    ensures var front := Deframe(s, maxFrame).pieces[..a];
            AllSound(front, maxFrame) && s == Wire(front) + ("000" + tail)
  {
    var c := Deframe(s, maxFrame);
    var front, behind := c.pieces[..a], c.pieces[a + 1..];
    Around(c.pieces, a);
    DeframeConserves(s, maxFrame);
    WireConcat(front, [KeepAlive] + behind);
    WireCons(KeepAlive, behind);
    tail := "0" + (Wire(behind) + c.rest);
    LastZero(Wire(behind), c.rest);
    Associative(Wire(front), Bytes(KeepAlive) + Wire(behind), c.rest);
  }

  lemma Around<T>(s: seq<T>, a: nat)
    requires a < |s|
    ensures s == s[..a] + ([s[a]] + s[a + 1..])
  {
  }

  lemma LastZero(behind: string, rest: string)
    ensures (Bytes(KeepAlive) + behind) + rest == "000" + ("0" + (behind + rest))
  {
    assert "0000" == "000" + "0";
    Associative("000", "0", behind);
    Associative("000", "0" + behind, rest);
    Associative("0", behind, rest);
  }

  lemma FromThirdByte(front: string, tail: string)
    ensures |front| + 3 <= |front + ("000" + tail)|
    ensures (front + ("000" + tail))[|front| + 3..] == tail
  {
  }

  lemma StallingSplits(front: seq<Piece>, tail: string, m: nat)
    requires |tail| <= READ_SIZE * m
    ensures IsSplit(Stalling(front, tail), Wire(front) + ("000" + tail)) && |FullReads(tail)| <= m
  {
    FullReadsSplit(tail, m);
    ByteByByteSplits(Wire(front));
    FeedOne("000", 0);
    SplitConcat(ByteByByte(Wire(front)), ["000"], Wire(front), "000");
    SplitConcat(ByteByByte(Wire(front)) + ["000"], FullReads(tail), Wire(front) + "000", tail);
    Associative(Wire(front), "000", tail);
  }

  lemma NotPast(all: seq<Piece>, taken: seq<Piece>, left: seq<Piece>, a: nat, i: nat, readCount: nat)
    requires all == taken + left && Outlasted(all, taken, a, i, readCount) && all[i].KeepAlive?
    requires exists j :: i < j < |all| && IsFrame(all[j])
    ensures FramesOf(left) != []
  {
    var j :| i < j < |all| && IsFrame(all[j]);
    if |taken| > i + 1 {
      PrefixParts(taken, left, a, i);
      CountParts(taken, a, i);
    } else {
      assert left[j - |taken|] == all[j];
      FrameCounts(left, j - |taken|);
    }
  }

  lemma PrefixParts<T>(a: seq<T>, b: seq<T>, from: nat, to: nat)
    requires from <= to < |a|
    ensures (a + b)[..from] == a[..from] && (a + b)[from..to + 1] == a[from..to + 1]
  {
  }

  lemma CountParts(pieces: seq<Piece>, a: nat, i: nat)
    requires a <= i < |pieces|
    ensures KeepAlives(pieces)
            == KeepAlives(pieces[..a]) + KeepAlives(pieces[a..i + 1]) + KeepAlives(pieces[i + 1..])
  {
    assert pieces == (pieces[..a] + pieces[a..i + 1]) + pieces[i + 1..];
    KeepAlivesConcat(pieces[..a], pieces[a..i + 1]);
    KeepAlivesConcat(pieces[..a] + pieces[a..i + 1], pieces[i + 1..]);
  }

  /** Every split of a stream with no frame over the limit hands on every frame exactly when no
      keep-alives can outlast its reads: there are none from which on the stream takes no more
      reads than there are keep-alives in front of a frame. */
  lemma HandsOnIff(s: string, maxFrame: nat)
    requires Clean(s, maxFrame)
    ensures EverySplitHandsOn(s, maxFrame) <==> !CanBeDelayed(Deframe(s, maxFrame).pieces, |s|)
  {
    if CanBeDelayed(Deframe(s, maxFrame).pieces, |s|) {
      var a: nat, i: nat :| DelayedPast(Deframe(s, maxFrame).pieces, |s|, a, i);
      DelayedStays(s, a, i, maxFrame);
    } else {
      forall chunks | IsSplit(chunks, s)
        ensures FramesOf(Feed(chunks, maxFrame).pieces) == FramesOf(Deframe(s, maxFrame).pieces)
      {
        UndelayedHandsOn(chunks, maxFrame);
      }
    }
  }

  // ----- a split that yields other frames -----

  /** Whatever the split, the frames in front of the first one over the limit are not lost. */
  lemma {:induction false} FramesInFrontKept(chunks: seq<string>, z: string, maxFrame: nat)
    ensures var h, x := Feed(chunks, maxFrame), Concat(chunks);
            Intact(h, x, maxFrame) || FramesOf(Deframe(x + z, maxFrame).pieces) <= FramesOf(h.pieces)
  {
    if chunks == [] {
    } else {
      var before, chunk := chunks[..|chunks| - 1], chunks[|chunks| - 1];
      var g, x := Feed(before, maxFrame), Concat(before);
      assert x + (chunk + z) == x + chunk + z;
      FramesInFrontKept(before, chunk + z, maxFrame);
      FrontKeptByRead(g, x, chunk, z, maxFrame);
    }
  }

  lemma FrontKeptByRead(g: History, x: string, chunk: string, z: string, maxFrame: nat)
    requires Intact(g, x, maxFrame) || FramesOf(Deframe(x + chunk + z, maxFrame).pieces) <= FramesOf(g.pieces)
    ensures var h := Read(g, chunk, maxFrame);
            || Intact(h, x + chunk, maxFrame)
            || FramesOf(Deframe(x + chunk + z, maxFrame).pieces) <= FramesOf(h.pieces)
  {
    var c := Drain(g.buffer + chunk, maxFrame);
    if !Intact(g, x, maxFrame) {
      FramesConcat(g.pieces, c.pieces);
    } else if NoDiscards(c.pieces) {
      StillIntact(g, x, chunk, maxFrame);
    } else {
      FirstDiscard(g, x, chunk, z, maxFrame);
    }
  }

  lemma OutcomeKeepsFront(chunks: seq<string>, maxFrame: nat)
    ensures FramesOf(Deframe(Concat(chunks), maxFrame).pieces) <= Outcome(Feed(chunks, maxFrame), maxFrame)
  {
    var h, s := Feed(chunks, maxFrame), Concat(chunks);
    assert s + "" == s;
    FramesInFrontKept(chunks, "", maxFrame);
    if Intact(h, s, maxFrame) {
      IntactOutcome(chunks, maxFrame);
    }
  }

  /** Reads that leave an empty buffer are forgotten. */
  lemma {:induction false} FeedConcat(a: seq<string>, b: seq<string>, maxFrame: nat)
    requires Feed(a, maxFrame).buffer == ""
    ensures Feed(a + b, maxFrame) == Resume(Feed(a, maxFrame).pieces, Feed(b, maxFrame))
  {
    if b == [] {
      assert a + b == a;
      assert Feed(a, maxFrame).pieces + [] == Feed(a, maxFrame).pieces;
    } else {
      FeedConcat(a, b[..|b| - 1], maxFrame);
      Init(a, b);
      ReadResumes(Feed(a, maxFrame).pieces, Feed(b[..|b| - 1], maxFrame), b[|b| - 1], maxFrame);
    }
  }

  function Resume(earlier: seq<Piece>, h: History): History {
    History(earlier + h.pieces, h.buffer)
  }

  lemma ReadResumes(earlier: seq<Piece>, h: History, chunk: string, maxFrame: nat)
    ensures Read(Resume(earlier, h), chunk, maxFrame) == Resume(earlier, Read(h, chunk, maxFrame))
  {
    Associative(earlier, h.pieces, Drain(h.buffer + chunk, maxFrame).pieces);
  }

  /** Sound pieces that arrive byte by byte leave an empty buffer. */
  lemma PiecesByteByByte(pieces: seq<Piece>, maxFrame: nat)
    requires AllSound(pieces, maxFrame)
    ensures Feed(ByteByByte(Wire(pieces)), maxFrame) == History(pieces, "")
  {
    var s := Wire(pieces);
    var chunks := ByteByByte(s);
    var h := Feed(chunks, maxFrame);
    ByteByByteSplits(s);
    WireDeframes(pieces, maxFrame);
    CleanFeedKeeps(chunks, maxFrame);
    ByteByByteFinds(s, maxFrame);
    KeptIsReference(chunks, maxFrame);
    assert h.pieces + [] == h.pieces;
  }

  lemma DecidedEarly(r: string, q: nat, maxFrame: nat)
    requires Front(r, maxFrame).OverLimit? && Deciding(r) <= q <= |r|
    ensures Front(r[..q], maxFrame).OverLimit?
  {
    assert r[..q][..4] == r[..4];
  }

  /** The pieces in front byte by byte, then one read up to byte `q` of the rest, then the others
      byte by byte. */
  function Splitting(s: string, q: nat, maxFrame: nat): seq<string>
    requires q <= |Refused(s, maxFrame)|
  {
    var rest := Refused(s, maxFrame);
    ByteByByte(Wire(Deframe(s, maxFrame).pieces)) + ([rest[..q]] + ByteByByte(rest[q..]))
  }

  lemma SplittingSplits(s: string, q: nat, maxFrame: nat)
    requires 1 <= q <= |Refused(s, maxFrame)| && q <= READ_SIZE
    ensures IsSplit(Splitting(s, q, maxFrame), s)
  {
    var front, rest := Wire(Deframe(s, maxFrame).pieces), Refused(s, maxFrame);
    var gone, tail := rest[..q], rest[q..];
    ThreeParts(front, gone, tail);
    assert front + (gone + tail) == s by {
      DeframeConserves(s, maxFrame);
      Rejoined(rest, q);
    }
  }

  lemma Rejoined(r: string, q: nat)
    requires q <= |r|
    ensures r[..q] + r[q..] == r
  {
  }

  lemma ThreeParts(front: string, gone: string, tail: string)
    requires 1 <= |gone| <= READ_SIZE
    ensures IsSplit(ByteByByte(front) + ([gone] + ByteByByte(tail)), front + (gone + tail))
  {
    ByteByByteSplits(front);
    ByteByByteSplits(tail);
    FeedOne(gone, 0);
    SplitConcat([gone], ByteByByte(tail), gone, tail);
    SplitConcat(ByteByByte(front), [gone] + ByteByByte(tail), front, gone + tail);
  }

  lemma SplitConcat(a: seq<string>, b: seq<string>, s: string, t: string)
    requires IsSplit(a, s) && IsSplit(b, t)
    ensures IsSplit(a + b, s + t)
  {
    ConcatConcat(a, b);
  }

  lemma {:induction false} ConcatConcat(a: seq<string>, b: seq<string>)
    ensures Concat(a + b) == Concat(a) + Concat(b)
  {
    if b == [] {
      assert a + b == a;
    } else {
      ConcatConcat(a, b[..|b| - 1]);
      Init(a, b);
      Associative(Concat(a), Concat(b[..|b| - 1]), b[|b| - 1]);
    }
  }

  lemma SplittingOutcome(s: string, q: nat, maxFrame: nat)
    requires Front(Refused(s, maxFrame), maxFrame).OverLimit?
    requires Deciding(Refused(s, maxFrame)) <= q <= |Refused(s, maxFrame)|
    ensures Outcome(Feed(Splitting(s, q, maxFrame), maxFrame), maxFrame)
            == FramesOf(Deframe(s, maxFrame).pieces)
               + Outcome(Feed(ByteByByte(Refused(s, maxFrame)[q..]), maxFrame), maxFrame)
  {
    var c := Deframe(s, maxFrame);
    var gone, tail := c.rest[..q], ByteByByte(c.rest[q..]);
    var h := Feed(tail, maxFrame);
    DeframeConserves(s, maxFrame);
    PiecesByteByByte(c.pieces, maxFrame);
    DecidedEarly(c.rest, q, maxFrame);
    FeedOne(gone, maxFrame);
    FeedConcat([gone], tail, maxFrame);
    FeedConcat(ByteByByte(Wire(c.pieces)), [gone] + tail, maxFrame);
    OnePiece(Discarded(gone));
    FramesConcat([Discarded(gone)], h.pieces);
    FramesConcat(c.pieces, [Discarded(gone)] + h.pieces);
    assert [] + FramesOf(h.pieces) == FramesOf(h.pieces);
    Associative(FramesOf(c.pieces), FramesOf(h.pieces), FramesOf(Deframe(h.buffer, maxFrame).pieces));
  }

  /** A frame behind the first one over the limit, within one read of it, makes the frames depend
      on the split: a read that ends right in front of it keeps it, others may not. */
  lemma FrameBehindDiffers(s: string, q: nat, maxFrame: nat)
    requires !Clean(s, maxFrame)
    requires Deciding(Refused(s, maxFrame)) <= q <= |Refused(s, maxFrame)| && q <= READ_SIZE
    requires FramesOf(Deframe(Refused(s, maxFrame)[q..], maxFrame).pieces) != []
    ensures !SameUnderEverySplit(s, maxFrame)
  {
    var chunks, tail := Splitting(s, q, maxFrame), ByteByByte(Refused(s, maxFrame)[q..]);
    DeframeConserves(s, maxFrame);
    SplittingSplits(s, q, maxFrame);
    SplittingOutcome(s, q, maxFrame);
    ByteByByteSplits(Refused(s, maxFrame)[q..]);
    OutcomeKeepsFront(tail, maxFrame);
    assert |Outcome(Feed(tail, maxFrame), maxFrame)| > 0;
  }

  /** For a stream whose first frame over the limit comes within its last 4096 bytes, every split
      yields the same frames exactly when no frame is over the limit or none stands behind. */
  lemma SameFramesIff(s: string, maxFrame: nat)
    requires |Refused(s, maxFrame)| <= 4096
    ensures SameUnderEverySplit(s, maxFrame) <==> Clean(s, maxFrame) || NoFrameBehind(s, maxFrame)
  {
    if Clean(s, maxFrame) {
      forall chunks | IsSplit(chunks, s)
        ensures Outcome(Feed(chunks, maxFrame), maxFrame) == FramesOf(Deframe(s, maxFrame).pieces)
      {
        CleanFeedKeeps(chunks, maxFrame);
        IntactOutcome(chunks, maxFrame);
      }
    } else if NoFrameBehind(s, maxFrame) {
      NoFrameBehindSuffices(s, maxFrame);
    } else {
      var rest := Refused(s, maxFrame);
      var q :| Deciding(rest) <= q <= |rest| && FramesOf(Deframe(rest[q..], maxFrame).pieces) != [];
      FrameBehindDiffers(s, q, maxFrame);
    }
  }

  lemma FeedOne(chunk: string, maxFrame: nat)
    ensures Feed([chunk], maxFrame) == History(Drain(chunk, maxFrame).pieces, Drain(chunk, maxFrame).rest)
    ensures Concat([chunk]) == chunk
  {
    var chunks := [chunk];
    assert chunks[..0] == [];
    assert "" + chunk == chunk;
  }

  lemma FeedTwo(first: string, second: string, maxFrame: nat)
    ensures Feed([first, second], maxFrame) == Read(Feed([first], maxFrame), second, maxFrame)
    ensures Concat([first, second]) == first + second
  {
    var chunks := [first, second];
    assert chunks[..1] == [first];
    FeedOne(first, maxFrame);
  }

  lemma DrainOverLimit(x: string)
    ensures Drain("9999" + x, 100) == Cut([Discarded("9999" + x)], "")
  {
    var s := "9999" + x;
    assert s[..4] == Digits(9999, 4);
    assert Power10(4) == 10000;
    ValueOfDigits(9999, 4);
  }

  lemma DrainOneFrame()
    ensures Drain("0001A", 100) == Cut([Prefixed("A")], "")
  {
    var p := Prefixed("A");
    assert Digits(1, 4) == "0001";
    assert Bytes(p) + "" == "0001A";
    FrontOfSound(p, "", 100);
    assert "0001A"[5..] == "";
    assert Drain("", 100) == Cut([], "");
  }

  /** Over the limit the frames do depend on the reads: the same nine bytes give one frame or
      none. */
  lemma DiscardDependsOnReads()
    ensures Concat(["9999", "0001A"]) == Concat(["99990001A"])
    ensures FramesOf(Feed(["9999", "0001A"], 100).pieces) == [Frame("A", true)]
    ensures FramesOf(Feed(["99990001A"], 100).pieces) == []
  {
    var a, b := "9999", "0001A";
    assert a + b == "99990001A";
    var gone, kept := [Discarded(a)], [Prefixed("A")];
    assert Feed([a], 100) == History(gone, "") by {
      FeedOne(a, 100);
      assert "9999" + "" == a;
      DrainOverLimit("");
    }
    assert Feed([a, b], 100).pieces == gone + kept by {
      FeedTwo(a, b, 100);
      assert "" + b == b;
      DrainOneFrame();
    }
    assert Feed([a + b], 100).pieces == [Discarded(a + b)] by {
      FeedOne(a + b, 100);
      DrainOverLimit(b);
    }
    assert Concat([a, b]) == Concat([a + b]) by {
      FeedOne(a + b, 100);
      FeedTwo(a, b, 100);
    }
    OnePiece(Discarded(a));
    OnePiece(Discarded(a + b));
    OnePiece(Prefixed("A"));
    FramesConcat(gone, kept);
  }

  lemma OnePiece(p: Piece)
    ensures FramesOf([p]) == if IsFrame(p) then [FrameOf(p)] else []
  {
    assert [p][1..] == [];
  }
}
