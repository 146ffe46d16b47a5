/**
 What the WebSocket handler does with received bytes, and how it sends a message
 (src/protocol/websocket/websocket_handler.cc; sections 5.4 and 5.5 of RFC 6455).

 The service behind the handler is a log of the messages delivered to it and a list of what it
 answers; the socket is a log of the frames sent.  Whether a request for a send buffer finds one is
 the world's business: it may refuse any request.  Closing a connection succeeds.
 */
module WebSocketHandlers {
  import opened Bytes
  import opened WebSocketParsers
  import opened WebSocketFrames

  const CONTINUATION := 0
  const TEXT := 1
  const BINARY := 2
  const CLOSE := 8
  const PING := 9
  const PONG := 10

  /** "Are you ok?", what the server's own pings carry. */
  const PING_PAYLOAD: seq<Byte> := [0x41, 0x72, 0x65, 0x20, 0x79, 0x6F, 0x75, 0x20, 0x6F, 0x6B, 0x3F]

  /** Does the `n`-th request for a send buffer find one, and what does the service answer to the `n`-th
      message? */
  datatype World = World(grants: nat -> bool, answers: nat -> seq<Byte>)

  datatype HandleState = Normal | Continued | Closing

  /** What the handler remembers between two frames.  `asked` counts the requests for send buffers;
      `overrun` says that a frame has been written that is longer than its buffer. */
  datatype Session = Session(
    state: HandleState, cache: seq<Byte>, delivered: seq<seq<Byte>>, sent: seq<Frame>,
    asked: nat, waiting: bool, closed: bool, overrun: bool)

  // ---------- sending ----------

  const BUFFER_SIZE := 2048

  /** How much of a payload fits a buffer beside its header. */
  function AffordablePayload(payloadLength: nat, bufferSize: nat): nat {
    if bufferSize <= 2 then 0
    else
      var room :=
        if payloadLength < 126 then bufferSize - 2
        else if payloadLength < 0xFFFF then (if bufferSize > 4 then bufferSize - 4 else 0)
        else if bufferSize > 10 then bufferSize - 10 else 0;
      if room > payloadLength then payloadLength else room
  }

  /** As much as there is room for behind the longest header that the whole payload could need. */
  lemma AffordableExactly(n: nat, size: nat)
    ensures var header := if n < 126 then 2 else if n < 65535 then 4 else 10;
      AffordablePayload(n, size) == if size <= header then 0 else if n < size - header then n else size - header
  {
  }

  /** The form the server picks for a length; 65535 already gets the long one. */
  function ServerForm(n: nat): LengthForm {
    if n < 126 then Short else if n < 0xFFFF then Medium else Long
  }

  /** An unmasked frame, as the server sends it. */
  function Encapsulate(f: Frame): seq<Byte>
    requires f.Valid()
  {
    [FirstByte(f)] + LengthBytes(ServerForm(|f.payload|), |f.payload|, false) + f.payload
  }

  /** How many bytes such a frame takes. */
  function FrameSize(n: nat): nat { n + if n < 126 then 2 else if n < 0xFFFF then 4 else 10 }

  lemma EncapsulateSize(f: Frame)
    requires f.Valid()
    ensures |Encapsulate(f)| == FrameSize(|f.payload|)
  {
  }

  /** The bytes of an unmasked frame, length by length. */
  lemma OnTheWire(f: Frame)
    requires f.Valid()
    ensures var e, n := Encapsulate(f), |f.payload|;
      && (n < 126 ==> e == [FirstByte(f), n] + f.payload)
      && (126 <= n < 65535 ==> e == [FirstByte(f), 126, n / 256, n % 256] + f.payload)
      && (n >= 65535 ==> e == [FirstByte(f), 127, 0, 0, 0, 0, 0, n / 65536, n / 256 % 256, n % 256] + f.payload)
  {
    var n := |f.payload|;
    if n >= 126 {
      LowestBytes(n);
    }
  }

  lemma LowestBytes(n: nat)
    requires n <= MAX_PAYLOAD_LENGTH
    ensures n < 65536 ==> ToBigEndian(n, 2) == [n / 256, n % 256]
    ensures ToBigEndian(n, 8) == [0, 0, 0, 0, 0, n / 65536, n / 256 % 256, n % 256]
  {
    assert ToBigEndian(n / 65536 / 256, 5) == [0, 0, 0, 0, 0];
  }

  /** "Hello" in one unmasked frame, and in two, as in section 5.7 of RFC 6455. */
  lemma HelloOnTheWire()
    ensures Encapsulate(Frame(true, 0, TEXT, HELLO)) == [0x81, 0x05] + HELLO
    ensures Encapsulate(Frame(false, 0, TEXT, HELLO[..3])) == [0x01, 0x03, 0x48, 0x65, 0x6C]
    ensures Encapsulate(Frame(true, 0, CONTINUATION, HELLO[3..])) == [0x80, 0x02, 0x6C, 0x6F]
  {
    OnTheWire(Frame(true, 0, TEXT, HELLO));
    OnTheWire(Frame(false, 0, TEXT, HELLO[..3]));
    OnTheWire(Frame(true, 0, CONTINUATION, HELLO[3..]));
  }

  /** The frames of one message. */
  function Fragments(data: seq<Byte>, first: bool): (fs: seq<Frame>)
    ensures forall i :: 0 <= i < |fs| ==> fs[i].Valid()
    decreases |data|
  {
    if data == [] then []
    else
      var n := AffordablePayload(|data|, BUFFER_SIZE);
      [Frame(n == |data|, 0, if first then TEXT else CONTINUATION, data[..n])] + Fragments(data[n..], false)
  }

  function Payloads(fs: seq<Frame>): seq<Byte> {
    if fs == [] then [] else fs[0].payload + Payloads(fs[1..])
  }

  /** The frames carry the message, fit a buffer each, and are marked as the protocol wants. */
  lemma {:induction false} FragmentsAreAMessage(data: seq<Byte>, first: bool)
    ensures var fs := Fragments(data, first);
      && Payloads(fs) == data
      && (data != [] ==> fs != [])
      && forall i :: 0 <= i < |fs| ==>
           && |Encapsulate(fs[i])| <= BUFFER_SIZE
           && fs[i].payload != [] && fs[i].rsv == 0
           && fs[i].fin == (i == |fs| - 1)
           && fs[i].opcode == (if i == 0 && first then TEXT else CONTINUATION)
    decreases |data|
  {
    if data != [] {
      var n := AffordablePayload(|data|, BUFFER_SIZE);
      FragmentsAreAMessage(data[n..], false);
      assert data == data[..n] + data[n..];
      var fs := Fragments(data, first);
      assert fs[1..] == Fragments(data[n..], false);
      forall i | 0 <= i < |fs|
        ensures |Encapsulate(fs[i])| <= BUFFER_SIZE && fs[i].payload != [] && fs[i].rsv == 0 && fs[i].fin == (i == |fs| - 1)
        ensures fs[i].opcode == (if i == 0 && first then TEXT else CONTINUATION)
      {
        if i > 0 {
          assert fs[i] == fs[1..][i - 1];
        }
      }
    }
  }

  /** A message of at most 2044 bytes is one frame; of a longer one the first frame takes 2044, or 2038
      while 65535 or more are left, and the rest is cut the same. */
  lemma FirstFragment(data: seq<Byte>, first: bool)
    requires data != []
    ensures var fs, n := Fragments(data, first), |data|;
      && fs != []
      && |fs[0].payload| == (if n <= 2044 then n else if n < 65535 then 2044 else 2038)
      && fs[0].payload == data[..|fs[0].payload|]
      && fs[1..] == Fragments(data[|fs[0].payload|..], false)
  {
  }

  // ---------- one frame ----------

  /** `send_close_frame`: without a buffer the connection is closed instead, and the state stays. */
  function CloseFrame(s: Session, w: World): Session {
    if w.grants(s.asked) then s.(asked := s.asked + 1, state := Closing)
    else s.(asked := s.asked + 1, closed := true)
  }

  /** `send_pong_frame`: the payload goes back whole, however long it is. */
  function Pong(s: Session, data: seq<Byte>, w: World): Session {
    if w.grants(s.asked) then
      s.(asked := s.asked + 1, sent := s.sent + [Frame(true, 0, PONG, data)],
         overrun := s.overrun || FrameSize(|data|) > BUFFER_SIZE)
    else s.(asked := s.asked + 1, closed := true)
  }

  /** Frames sent one by one, until a buffer is refused. */
  function SendAll(s: Session, fs: seq<Frame>, w: World): Session
    decreases |fs|
  {
    if fs == [] then s
    else if w.grants(s.asked) then SendAll(s.(asked := s.asked + 1, sent := s.sent + [fs[0]]), fs[1..], w)
    else s.(asked := s.asked + 1, closed := true)
  }

  /** The service gets the message and its answer is sent. */
  function Deliver(s: Session, w: World): Session {
    SendAll(s.(delivered := s.delivered + [s.cache]), Fragments(w.answers(|s.delivered|), true), w).(cache := [])
  }

  function TakeDataFrame(s: Session, fin: bool, opcode: nat, data: seq<Byte>, w: World): Session {
    if s.state == Closing then s
    else if opcode == CONTINUATION then
      if s.state != Continued then CloseFrame(s, w)
      else
        var t := s.(state := if fin then Normal else Continued);
        if |s.cache| + |data| > MAX_PAYLOAD_LENGTH then CloseFrame(t, w) else t.(cache := s.cache + data)
    else if opcode == TEXT || opcode == BINARY then
      s.(state := if fin then s.state else Continued, cache := data)
    else CloseFrame(s, w)
  }

  /** The bytes before the first zero, which is what a string comparison sees. */
  function CString(data: seq<Byte>): seq<Byte> {
    if data == [] || data[0] == 0 then [] else [data[0]] + CString(data[1..])
  }

  predicate Expected(data: seq<Byte>) { CString(data) == PING_PAYLOAD }

  function TakeControlFrame(s: Session, opcode: nat, data: seq<Byte>, w: World): Session {
    if opcode == CLOSE then (if s.state == Closing then s else CloseFrame(s, w)).(closed := true)
    else if opcode == PING then Pong(s, data, w)
    else if opcode == PONG then
      if !s.waiting then s else (if Expected(data) then s else CloseFrame(s, w)).(waiting := false)
    else CloseFrame(s, w)
  }

  /** A complete frame. */
  function Dispatch(s: Session, fin: bool, opcode: nat, data: seq<Byte>, w: World): Session {
    if opcode >= 8 then TakeControlFrame(s, opcode, data, w)
    else
      var t := TakeDataFrame(s, fin, opcode, data, w);
      if t.state == Normal then Deliver(t, w) else t
  }

  function Take(s: Session, f: Frame, w: World): Session { Dispatch(s, f.fin, f.opcode, f.payload, w) }

  function TakeAll(s: Session, fs: seq<Frame>, w: World): Session
    decreases |fs|
  {
    if s.closed || fs == [] then s else TakeAll(Take(s, fs[0], w), fs[1..], w)
  }

  // ---------- bytes ----------

  datatype Handler = Handler(parser: Parser, session: Session)

  predicate Listening(p: Parser) { p.Valid() && p.stage != Done }

  lemma TakenPositive(p: Parser, buf: seq<Byte>)
    requires Listening(p) && Run(p, buf).stage == Done
    ensures Taken(p, buf) > 0
  {
  }

  lemma {:induction false} DoneHasNoError(p: Parser, buf: seq<Byte>)
    requires Listening(p) && Run(p, buf).stage == Done
    ensures Run(p, buf).error == 0
    decreases |buf|
  {
    if !p.Stopped() && buf != [] {
      var q := Feed(p, buf[0]);
      if !q.Stopped() {
        DoneHasNoError(q, buf[1..]);
      }
    }
  }

  /** One received buffer.  The program does not stop at an error: it says so in a close frame, goes on
      with the next buffer, and says so again.  Only behind a length that is too big the model ends. */
  function Recv(h: Handler, buf: seq<Byte>, w: World): (r: Handler)
    requires Listening(h.parser)
    ensures Listening(r.parser)
    decreases |buf|
  {
    if h.session.closed || !h.parser.Resumable() then h
    else
      var p, n := Execute(h.parser, buf), Taken(h.parser.(error := 0), buf);
      if p.stage == Done then
        TakenPositive(h.parser.(error := 0), buf);
        var next := Handler(p.Reset(), Dispatch(h.session, p.fin, p.opcode, p.data, w));
        if n < |buf| then Recv(next, buf[n..], w) else next
      else if p.error != 0 then Handler(p, CloseFrame(h.session, w))
      else h.(parser := p)
  }

  function RecvAll(h: Handler, bufs: seq<seq<Byte>>, w: World): (r: Handler)
    requires Listening(h.parser)
    ensures Listening(r.parser)
    decreases |bufs|
  {
    if bufs == [] then h else RecvAll(Recv(h, bufs[0], w), bufs[1..], w)
  }

  lemma RunNothing(p: Parser)
    requires p.Valid()
    ensures Run(p, []) == p && Taken(p, []) == 0
  {
  }

  /** The parser stops only at the end of a frame or at an error. */
  lemma {:induction false} TakesAll(p: Parser, buf: seq<Byte>)
    requires p.Valid() && !Run(p, buf).Stopped()
    ensures Taken(p, buf) == |buf|
    decreases |buf|
  {
    if buf != [] {
      TakesAll(Feed(p, buf[0]), buf[1..]);
    }
  }

  lemma RecvNothing(h: Handler, w: World)
    requires Listening(h.parser) && h.parser.error == 0
    ensures Recv(h, [], w) == h
  {
  }

  /** One call for a parser without an error. */
  lemma RecvIs(h: Handler, buf: seq<Byte>, w: World)
    requires Listening(h.parser) && h.parser.error == 0
    ensures var p, n := Run(h.parser, buf), Taken(h.parser, buf);
      var next := Handler(p.Reset(), Dispatch(h.session, p.fin, p.opcode, p.data, w));
      && (p.stage == Done ==> Listening(next.parser) && next.parser.error == 0)
      && Recv(h, buf, w) ==
           if h.session.closed then h
           else if p.stage == Done then (if n < |buf| then Recv(next, buf[n..], w) else next)
           else if p.error != 0 then Handler(p, CloseFrame(h.session, w))
           else h.(parser := p)
  {
    hide Run, Taken, Dispatch, CloseFrame;
    if Run(h.parser, buf).stage == Done {
      DoneHasNoError(h.parser, buf);
    }
  }

  /** One cut: without an error, receiving two buffers is receiving them as one. */
  lemma {:induction false} RecvConcat(h: Handler, a: seq<Byte>, b: seq<Byte>, w: World)
    requires Listening(h.parser) && h.parser.error == 0 && Recv(h, a + b, w).parser.error == 0
    ensures Recv(h, a, w).parser.error == 0
    ensures Recv(Recv(h, a, w), b, w) == Recv(h, a + b, w)
    decreases |a|
  {
    hide Run, Taken, Dispatch, CloseFrame, Recv;
    RecvIs(h, a, w);
    RecvIs(h, a + b, w);
    RunConcat(h.parser, a, b);
    var p, n := Run(h.parser, a), Taken(h.parser, a);
    if h.session.closed {
      RecvIs(h, b, w);
    } else if p.stage == Done {
      RunStopped(p, b);
      TakenPositive(h.parser, a);
      var next := Handler(p.Reset(), Dispatch(h.session, p.fin, p.opcode, p.data, w));
      assert (a + b)[n..] == a[n..] + b;
      if n < |a| {
        RecvConcat(next, a[n..], b, w);
      } else {
        assert a[n..] + b == b;
        RecvNothing(next, w);
      }
    } else if p.error == 0 {
      TakesAll(h.parser, a);
      RecvIs(h.(parser := p), b, w);
      var m := Taken(p, b);
      assert (a + b)[n + m..] == b[m..];
    } else {
      RunStopped(p, b);
    }
  }

  /** Any number of cuts. */
  lemma {:induction false} RecvAnyCut(h: Handler, bufs: seq<seq<Byte>>, w: World)
    requires Listening(h.parser) && h.parser.error == 0 && Recv(h, Concat(bufs), w).parser.error == 0
    ensures RecvAll(h, bufs, w) == Recv(h, Concat(bufs), w)
    decreases |bufs|
  {
    if bufs == [] {
      RecvNothing(h, w);
    } else {
      RecvConcat(h, bufs[0], Concat(bufs[1..]), w);
      RecvAnyCut(Recv(h, bufs[0], w), bufs[1..], w);
    }
  }

  // ---------- streams of frames ----------

  /** A frame as its sender put it on the wire. */
  datatype Sent = Sent(frame: Frame, form: LengthForm, key: seq<Byte>) {
    predicate Valid() { frame.Valid() && CanWrite(form, |frame.payload|) && |key| == 4 }
    function Wire(): seq<Byte>
      requires Valid()
    {
      Encode(frame, form, key)
    }
  }

  predicate AllSent(ws: seq<Sent>) { forall i :: 0 <= i < |ws| ==> ws[i].Valid() }

  function Stream(ws: seq<Sent>): seq<Byte>
    requires AllSent(ws)
  {
    if ws == [] then [] else ws[0].Wire() + Stream(ws[1..])
  }

  function Frames(ws: seq<Sent>): seq<Frame> {
    if ws == [] then [] else [ws[0].frame] + Frames(ws[1..])
  }

  /** The parser is between two frames. */
  predicate Ready(p: Parser) { p.Valid() && p.stage == FinAndOpcode && p.error == 0 && p.data == [] }

  /** Receiving a frame, whatever follows it, is taking it and receiving the rest. */
  lemma RecvFrame(h: Handler, m: Sent, rest: seq<Byte>, w: World)
    requires Ready(h.parser) && !h.session.closed && m.Valid()
    ensures var next := Handler(Run(h.parser, m.Wire() + rest).Reset(), Take(h.session, m.frame, w));
      && Ready(next.parser)
      && Recv(h, m.Wire() + rest, w) == Recv(next, rest, w)
  {
    hide Run, Taken, Dispatch, Encode;
    FrameParses(h.parser, m.frame, m.form, m.key, rest);
    var buf := m.Wire() + rest;
    var n := |m.Wire()|;
    assert buf[n..] == rest;
    var next := Handler(Run(h.parser, buf).Reset(), Take(h.session, m.frame, w));
    if rest == [] {
      RecvNothing(next, w);
    }
  }

  /** Receiving the bytes of any frames does to the session what taking the frames does. */
  lemma {:induction false} RecvStream(h: Handler, ws: seq<Sent>, w: World)
    requires Ready(h.parser) && AllSent(ws)
    ensures Recv(h, Stream(ws), w).session == TakeAll(h.session, Frames(ws), w)
    ensures Recv(h, Stream(ws), w).parser.error == 0
    decreases |ws|
  {
    hide Run, Taken, Take, Ready;
    if ws == [] {
      ReadyListens(h.parser);
      RecvNothing(h, w);
    } else if !h.session.closed {
      ReadyListens(h.parser);
      RecvFrame(h, ws[0], Stream(ws[1..]), w);
      assert Frames(ws)[1..] == Frames(ws[1..]);
      RecvStream(Handler(Run(h.parser, Stream(ws)).Reset(), Take(h.session, ws[0].frame, w)), ws[1..], w);
    } else {
      ReadyListens(h.parser);
    }
  }

  lemma ReadyListens(p: Parser)
    requires Ready(p)
    ensures Listening(p) && p.error == 0
  {
  }

  /** However the network cuts a stream of frames, the session ends the same. */
  lemma AnyCutDelivers(h: Handler, ws: seq<Sent>, bufs: seq<seq<Byte>>, w: World)
    requires Ready(h.parser) && AllSent(ws) && Concat(bufs) == Stream(ws)
    ensures RecvAll(h, bufs, w).session == TakeAll(h.session, Frames(ws), w)
    ensures PingsFit(Frames(ws)) ==> RecvAll(h, bufs, w).session.overrun == h.session.overrun
  {
    RecvStream(h, ws, w);
    RecvAnyCut(h, bufs, w);
    if PingsFit(Frames(ws)) {
      FittingPings(h.session, Frames(ws), w);
    }
  }

  // ---------- pongs ----------

  /** A pong fits its buffer exactly if the ping carried at most 2044 bytes; the protocol allows 125. */
  lemma PongFits(data: seq<Byte>)
    requires |data| <= MAX_PAYLOAD_LENGTH
    ensures |Encapsulate(Frame(true, 0, PONG, data))| <= BUFFER_SIZE <==> |data| <= 2044
  {
    EncapsulateSize(Frame(true, 0, PONG, data));
  }

  /** A ping writes behind a buffer exactly if it is longer than that and finds a buffer. */
  lemma OverrunExactly(s: Session, data: seq<Byte>, w: World)
    ensures Take(s, Frame(true, 0, PING, data), w).overrun <==> s.overrun || (|data| > 2044 && w.grants(s.asked))
  {
  }

  predicate PingsFit(fs: seq<Frame>) {
    forall i :: 0 <= i < |fs| && fs[i].opcode == PING ==> |fs[i].payload| <= 2044
  }

  /** Frames are sent in order up to the first request for a buffer that is refused, if there is one;
      then the connection is closed. */
  lemma {:induction false} SendAllExactly(s: Session, fs: seq<Frame>, w: World) returns (k: nat)
    ensures k <= |fs| && (forall n :: s.asked <= n < s.asked + k ==> w.grants(n))
    ensures k < |fs| ==> !w.grants(s.asked + k)
    ensures SendAll(s, fs, w) ==
      s.(sent := s.sent + fs[..k], asked := s.asked + (if k < |fs| then k + 1 else k), closed := s.closed || k < |fs|)
    decreases |fs|
  {
    if fs == [] || !w.grants(s.asked) {
      k := 0;
      assert s.sent + fs[..0] == s.sent;
    } else {
      var t := s.(asked := s.asked + 1, sent := s.sent + [fs[0]]);
      k := SendAllExactly(t, fs[1..], w);
      k := k + 1;
      assert s.sent + [fs[0]] + fs[1..][..k - 1] == s.sent + fs[..k];
    }
  }

  /** With every request granted, all of them are. */
  lemma SendsAll(s: Session, fs: seq<Frame>, w: World)
    requires forall n :: s.asked <= n ==> w.grants(n)
    ensures SendAll(s, fs, w) == s.(sent := s.sent + fs, asked := s.asked + |fs|)
  {
    var k := SendAllExactly(s, fs, w);
    assert fs[..|fs|] == fs;
  }

  lemma {:induction false} SendAllKeeps(s: Session, fs: seq<Frame>, w: World)
    ensures var t := SendAll(s, fs, w);
      && t == s.(sent := t.sent, asked := t.asked, closed := t.closed)
      && t.asked >= s.asked && (s.closed ==> t.closed)
      && ((forall n :: s.asked <= n ==> w.grants(n)) ==> t.closed == s.closed)
    decreases |fs|
  {
    if fs != [] {
      if w.grants(s.asked) {
        SendAllKeeps(s.(asked := s.asked + 1, sent := s.sent + [fs[0]]), fs[1..], w);
      }
    }
  }

  /** Nothing but an oversized ping writes behind a buffer. */
  lemma {:induction false} FittingPings(s: Session, fs: seq<Frame>, w: World)
    requires PingsFit(fs)
    ensures TakeAll(s, fs, w).overrun == s.overrun
    decreases |fs|
  {
    if fs != [] && !s.closed {
      TakeFits(s, fs[0], w);
      FittingPings(Take(s, fs[0], w), fs[1..], w);
    }
  }

  lemma TakeFits(s: Session, f: Frame, w: World)
    requires f.opcode == PING ==> |f.payload| <= 2044
    ensures Take(s, f, w).overrun == s.overrun
  {
    if f.opcode < 8 {
      var t := TakeDataFrame(s, f.fin, f.opcode, f.payload, w);
      SendAllKeeps(t.(delivered := t.delivered + [t.cache]), Fragments(w.answers(|t.delivered|), true), w);
    }
  }

  // ---------- messages across the wire ----------

  /** The frames that are not control frames. */
  function DataFrames(fs: seq<Frame>): seq<Frame> {
    if fs == [] then [] else (if fs[0].IsControl() then [] else [fs[0]]) + DataFrames(fs[1..])
  }

  predicate PingsOnly(fs: seq<Frame>) {
    forall i :: 0 <= i < |fs| && fs[i].IsControl() ==> fs[i].opcode == PING || fs[i].opcode == PONG
  }

  predicate NoControl(fs: seq<Frame>) { forall i :: 0 <= i < |fs| ==> !fs[i].IsControl() }

  lemma DeliverMeans(s: Session, w: World)
    ensures var t := Deliver(s, w);
      && t == s.(delivered := s.delivered + [s.cache], cache := [], sent := t.sent, asked := t.asked, closed := t.closed)
      && t.asked >= s.asked && (s.closed ==> t.closed)
      && ((forall n :: s.asked <= n ==> w.grants(n)) ==> t.closed == s.closed)
  {
    SendAllKeeps(s.(delivered := s.delivered + [s.cache]), Fragments(w.answers(|s.delivered|), true), w);
  }

  /** With every request granted the service's answer goes out whole. */
  lemma AnswerGoesOut(s: Session, w: World)
    requires forall n :: s.asked <= n ==> w.grants(n)
    ensures Deliver(s, w).sent == s.sent + Fragments(w.answers(|s.delivered|), true)
  {
    SendsAll(s.(delivered := s.delivered + [s.cache]), Fragments(w.answers(|s.delivered|), true), w);
  }

  // ---------- control frames and the end ----------

  /** A close frame of the client closes the connection, and nothing is delivered or sent after it. */
  lemma CloseEnds(s: Session, f: Frame, later: seq<Frame>, w: World)
    requires f.opcode == CLOSE
    ensures var t := Take(s, f, w);
      && t.closed && t.delivered == s.delivered && t.sent == s.sent && t.cache == s.cache
      && t.asked == (if s.state == Closing then s.asked else s.asked + 1)
      && t.state == (if w.grants(s.asked) then Closing else s.state)
      && TakeAll(t, later, w) == t
  {
  }

  /** A ping is answered by exactly one pong, with its payload; without a buffer the connection is closed
      and nothing is sent.  Nothing else changes. */
  lemma PingAnswered(s: Session, f: Frame, w: World)
    requires f.opcode == PING
    ensures var t := Take(s, f, w);
      && (w.grants(s.asked) ==> t.sent == s.sent + [Frame(true, 0, PONG, f.payload)] && t.closed == s.closed)
      && (!w.grants(s.asked) ==> t.sent == s.sent && t.closed)
      && t.asked == s.asked + 1 && t.delivered == s.delivered && t.state == s.state && t.cache == s.cache
      && t.waiting == s.waiting
  {
  }

  /** What counts as the expected pong: the text, alone or ended by a zero byte. */
  lemma ExpectedExactly(data: seq<Byte>)
    ensures Expected(data) <==> PING_PAYLOAD <= data && (|data| == 11 || data[11] == 0)
  {
    CStringExactly(data, PING_PAYLOAD);
  }

  lemma {:induction false} CStringExactly(data: seq<Byte>, text: seq<Byte>)
    requires 0 !in text
    ensures CString(data) == text <==> text <= data && (|data| == |text| || data[|text|] == 0)
    decreases |data|
  {
    if data != [] && data[0] != 0 && text != [] && data[0] == text[0] {
      CStringExactly(data[1..], text[1..]);
      assert text == [text[0]] + text[1..];
      assert text[1..] <= data[1..] <==> text <= data;
    } else if data != [] && data[0] != 0 && text != [] {
      assert CString(data)[0] == data[0];
    }
  }

  /** A pong that is waited for ends the waiting; any other than the expected one also closes. */
  lemma PongTaken(s: Session, f: Frame, w: World)
    requires f.opcode == PONG
    ensures var t := Take(s, f, w);
      && t.delivered == s.delivered && t.sent == s.sent && t.cache == s.cache && !t.waiting
      && (!s.waiting ==> t == s)
      && (s.waiting && Expected(f.payload) ==> t == s.(waiting := false))
      && (s.waiting && !Expected(f.payload) ==> t.state == Closing || t.closed)
  {
  }

  /** Opcodes without a meaning, and continuations of nothing, lead to closing.  Nothing is delivered,
      except that between two messages, with no buffer for the close frame, the service gets what is in
      the cache, which is nothing. */
  lemma UnknownCloses(s: Session, f: Frame, w: World)
    requires 3 <= f.opcode < 8 || f.opcode > PONG || f.opcode == CONTINUATION
    requires f.opcode == CONTINUATION ==> s.state == Normal
    ensures var t := Take(s, f, w);
      && (t.state == Closing || t.closed)
      && t.delivered == (if s.state == Normal && f.opcode < 8 && !w.grants(s.asked) then s.delivered + [s.cache]
                         else s.delivered)
  {
    if s.state == Normal && f.opcode < 8 {
      DeliverMeans(CloseFrame(s, w), w);
    }
  }

  /** Between two messages the cache is empty. */
  lemma NormalIsEmpty(s: Session, f: Frame, w: World)
    requires s.state == Normal ==> s.cache == []
    ensures Take(s, f, w).state == Normal ==> Take(s, f, w).cache == []
  {
    if f.opcode < 8 {
      DeliverMeans(TakeDataFrame(s, f.fin, f.opcode, f.payload, w), w);
    }
  }

  /** A handler that is closing takes no more data. */
  lemma ClosingIgnores(s: Session, f: Frame, w: World)
    requires s.state == Closing && f.opcode < 8
    ensures Take(s, f, w) == s
  {
  }

  /** Binary messages are taken like text. */
  lemma BinaryIsText(s: Session, f: Frame, w: World)
    requires f.opcode == BINARY
    ensures Take(s, f, w) == Take(s, f.(opcode := TEXT), w)
  {
  }

  /** After an error every buffer that completes no frame is answered by closing again. */
  lemma ErrorsAreRepeated(h: Handler, buf: seq<Byte>, w: World)
    requires Listening(h.parser) && h.parser.Resumable() && h.parser.error != 0 && !h.session.closed
    requires Run(h.parser.(error := 0), buf).stage != Done
    ensures var r := Recv(h, buf, w);
      r.parser.error != 0 && r.session == CloseFrame(h.session, w)
  {
  }

  // ---------- fragments with pings between them ----------

  /** Does the connection stay open and the handler listening until the last data frame?  Every ping
      before it must find a buffer, and the first pong must be the one that is waited for, if one is. */
  predicate Undisturbed(asked: nat, waiting: bool, fs: seq<Frame>, w: World)
    decreases |fs|
  {
    if DataFrames(fs) == [] then true
    else if fs[0].opcode == PING then w.grants(asked) && Undisturbed(asked + 1, waiting, fs[1..], w)
    else if fs[0].opcode == PONG then (!waiting || Expected(fs[0].payload)) && Undisturbed(asked, false, fs[1..], w)
    else Undisturbed(asked, waiting, fs[1..], w)
  }

  /** Pings and pongs alone deliver nothing. */
  lemma {:induction false} ControlDeliversNothing(s: Session, fs: seq<Frame>, w: World)
    requires PingsOnly(fs) && DataFrames(fs) == []
    ensures TakeAll(s, fs, w).delivered == s.delivered
    decreases |fs|
  {
    if fs != [] && !s.closed {
      assert DataFrames(fs[1..]) == [];
      ControlDeliversNothing(Take(s, fs[0], w), fs[1..], w);
    }
  }

  /** A handler that is closing, or whose connection is closed, delivers nothing more. */
  lemma {:induction false} DeafDeliversNothing(s: Session, fs: seq<Frame>, w: World)
    requires s.state == Closing || s.closed
    ensures TakeAll(s, fs, w).delivered == s.delivered
    decreases |fs|
  {
    if fs != [] && !s.closed {
      DeafDeliversNothing(Take(s, fs[0], w), fs[1..], w);
    }
  }

  /** What a fragment does to a session that is ready for it. */
  lemma TakeFragment(s: Session, rest: seq<Byte>, first: bool, w: World)
    requires rest != [] && !s.closed
    requires if first then s.state == Normal else s.state == Continued && |s.cache| <= MAX_PAYLOAD_LENGTH
    ensures var n := AffordablePayload(|rest|, BUFFER_SIZE);
      var had := if first then [] else s.cache;
      var t := Take(s, Fragments(rest, first)[0], w);
      if |had| + n <= MAX_PAYLOAD_LENGTH then
        if n < |rest| then t == s.(state := Continued, cache := had + rest[..n])
        else t == Deliver(s.(state := Normal, cache := had + rest), w)
      else
        var c := CloseFrame(s.(state := if n < |rest| then Continued else Normal), w);
        t == if n < |rest| || c.state == Closing then c else Deliver(c, w)
  {
    SomeIsAffordable(|rest|);
    var n := AffordablePayload(|rest|, BUFFER_SIZE);
    assert n == |rest| ==> rest[..n] == rest && [] + rest == rest;
    assert [] + rest[..n] == rest[..n];
  }

  lemma SomeIsAffordable(n: nat)
    requires n > 0
    ensures 0 < AffordablePayload(n, BUFFER_SIZE) <= n && AffordablePayload(n, BUFFER_SIZE) <= BUFFER_SIZE
  {
  }

  /** `t` has delivered what `s` had and at most the beginning of `whole`, and then only if closed. */
  ghost predicate NotWhole(s: Session, t: Session, whole: seq<Byte>) {
    t.delivered == s.delivered
    || (t.closed && exists n: nat :: n < |whole| && t.delivered == s.delivered + [whole[..n]])
  }

  /** Frames that complete a message, with pings and pongs between them: the message is delivered if
      the handler stays undisturbed and the message is not too long, and never otherwise.  A message
      that is too long is delivered cut off if its last frame is the one that is too much and no
      buffer is found to say so. */
  lemma {:induction false} StreamArrives(s: Session, fs: seq<Frame>, rest: seq<Byte>, first: bool, w: World)
    requires !s.closed && rest != [] && PingsOnly(fs) && DataFrames(fs) == Fragments(rest, first)
    requires if first then s.state == Normal else s.state == Continued && |s.cache| <= MAX_PAYLOAD_LENGTH
    ensures var whole := (if first then [] else s.cache) + rest;
      var t := TakeAll(s, fs, w);
      if !Undisturbed(s.asked, s.waiting, fs, w) then t.delivered == s.delivered
      else if |whole| <= MAX_PAYLOAD_LENGTH then t.delivered == s.delivered + [whole]
      else NotWhole(s, t, whole)
    decreases |fs|, 1
  {
    hide Take, Deliver, AffordablePayload, Fragments, CloseFrame, NotWhole, Expected;
    SomeFragments(rest, first);
    if fs[0].IsControl() {
      var next := Take(s, fs[0], w);
      assert DataFrames(fs) == DataFrames(fs[1..]);
      ControlFrameMeans(s, fs[0], w);
      if next.closed || next.state == Closing {
        DeafDeliversNothing(next, fs[1..], w);
      } else {
        StreamArrives(next, fs[1..], rest, first, w);
        NotWholeSame(s, next, TakeAll(s, fs, w), (if first then [] else s.cache) + rest);
      }
    } else {
      FragmentArrives(s, fs, rest, first, w);
    }
  }

  lemma NotWholeSame(s: Session, next: Session, t: Session, whole: seq<Byte>)
    requires next.delivered == s.delivered
    ensures NotWhole(next, t, whole) ==> NotWhole(s, t, whole)
  {
  }

  lemma SomeFragments(data: seq<Byte>, first: bool)
    requires data != []
    ensures Fragments(data, first) != []
  {
  }

  lemma {:induction false} FragmentArrives(s: Session, fs: seq<Frame>, rest: seq<Byte>, first: bool, w: World)
    requires !s.closed && rest != [] && PingsOnly(fs) && DataFrames(fs) == Fragments(rest, first)
    requires if first then s.state == Normal else s.state == Continued && |s.cache| <= MAX_PAYLOAD_LENGTH
    requires fs != [] && !fs[0].IsControl()
    ensures var whole := (if first then [] else s.cache) + rest;
      var t := TakeAll(s, fs, w);
      if !Undisturbed(s.asked, s.waiting, fs, w) then t.delivered == s.delivered
      else if |whole| <= MAX_PAYLOAD_LENGTH then t.delivered == s.delivered + [whole]
      else NotWhole(s, t, whole)
    decreases |fs|, 0
  {
    hide Take, Deliver, AffordablePayload, Fragments, CloseFrame, NotWhole, Expected;
    var next := Take(s, fs[0], w);
    var n := AffordablePayload(|rest|, BUFFER_SIZE);
    var had := if first then [] else s.cache;
    TakeFragment(s, rest, first, w);
    SomeIsAffordable(|rest|);
    SomeFragments(rest, first);
    FragmentsGoOn(fs, rest, first);
    assert had + rest[..n] + rest[n..] == had + rest;
    assert n == |rest| ==> Undisturbed(s.asked, s.waiting, fs[1..], w);
    if |had| + n <= MAX_PAYLOAD_LENGTH && n < |rest| {
      StreamArrives(next, fs[1..], rest[n..], false, w);
      NotWholeSame(s, next, TakeAll(s, fs, w), had + rest);
    } else if |had| + n <= MAX_PAYLOAD_LENGTH {
      DeliverMeans(s.(state := Normal, cache := had + rest), w);
      ControlDeliversNothing(next, fs[1..], w);
    } else {
      TooMuch(s, fs, rest, w);
    }
  }

  lemma FragmentsGoOn(fs: seq<Frame>, rest: seq<Byte>, first: bool)
    requires rest != [] && fs != [] && !fs[0].IsControl() && DataFrames(fs) == Fragments(rest, first)
    ensures var n := AffordablePayload(|rest|, BUFFER_SIZE);
      && fs[0] == Fragments(rest, first)[0] && DataFrames(fs[1..]) == Fragments(rest[n..], false)
      && (n == |rest| ==> DataFrames(fs[1..]) == [])
  {
    assert DataFrames(fs)[1..] == DataFrames(fs[1..]);
  }

  /** The frame with which a message gets too long. */
  lemma TooMuch(s: Session, fs: seq<Frame>, rest: seq<Byte>, w: World)
    requires !s.closed && rest != [] && s.state == Continued && |s.cache| <= MAX_PAYLOAD_LENGTH
    requires fs != [] && fs[0] == Fragments(rest, false)[0]
    requires |s.cache| + AffordablePayload(|rest|, BUFFER_SIZE) > MAX_PAYLOAD_LENGTH
    ensures NotWhole(s, TakeAll(s, fs, w), s.cache + rest)
    ensures AffordablePayload(|rest|, BUFFER_SIZE) < |rest| ==> TakeAll(s, fs, w).delivered == s.delivered
  {
    hide AffordablePayload, Take, Deliver, Fragments;
    TakeFragment(s, rest, false, w);
    var next := Take(s, fs[0], w);
    var n := AffordablePayload(|rest|, BUFFER_SIZE);
    var c := CloseFrame(s.(state := if n < |rest| then Continued else Normal), w);
    DeliverMeans(c, w);
    assert s.cache == (s.cache + rest)[..|s.cache|];
    if next.state == Closing || next.closed {
      DeafDeliversNothing(next, fs[1..], w);
    }
  }

  lemma ControlFrameMeans(s: Session, f: Frame, w: World)
    requires f.opcode == PING || f.opcode == PONG
    ensures var t := Take(s, f, w);
      && t.cache == s.cache && t.delivered == s.delivered
      && (if f.opcode == PING then
            t.asked == s.asked + 1 && t.waiting == s.waiting && t.state == s.state
            && (t.closed <==> s.closed || !w.grants(s.asked))
          else if s.waiting && !Expected(f.payload) then t.closed || t.state == Closing
          else t.asked == s.asked && !t.waiting && t.state == s.state && t.closed == s.closed)
  {
  }

  /** Without control frames in between: a message is delivered once and whole if it is not too long. */
  lemma MessageArrives(s: Session, data: seq<Byte>, w: World)
    requires s.state == Normal && !s.closed && data != []
    ensures var t := TakeAll(s, Fragments(data, true), w);
      if |data| <= MAX_PAYLOAD_LENGTH then t.delivered == s.delivered + [data] else NotWhole(s, t, data)
  {
    FragmentsAreAMessage(data, true);
    OnlyData(Fragments(data, true), s.asked, s.waiting, w);
    assert [] + data == data;
    StreamArrives(s, Fragments(data, true), data, true, w);
  }

  lemma {:induction false} OnlyData(fs: seq<Frame>, asked: nat, waiting: bool, w: World)
    requires NoControl(fs)
    ensures PingsOnly(fs) && DataFrames(fs) == fs && Undisturbed(asked, waiting, fs, w)
  {
    if fs != [] {
      OnlyData(fs[1..], asked, waiting, w);
    }
  }

  /** A message that is too long with its last frame, and no buffer to say so: the service gets it cut
      off before that frame. */
  lemma CutOffMessage(s: Session, data: seq<Byte>, w: World)
    requires s.state == Continued && !s.closed && |s.cache| <= MAX_PAYLOAD_LENGTH < |s.cache| + |data|
    requires 0 < |data| < 126 && !w.grants(s.asked)
    ensures TakeAll(s, Fragments(data, false), w).delivered == s.delivered + [s.cache]
    ensures TakeAll(s, Fragments(data, false), w).closed
  {
    TakeFragment(s, data, false, w);
    DeliverMeans(CloseFrame(s.(state := Normal), w), w);
    DeafDeliversNothing(Take(s, Fragments(data, false)[0], w), Fragments(data, false)[1..], w);
  }

  lemma NotWholeIsNot(s: Session, t: Session, whole: seq<Byte>)
    ensures NotWhole(s, t, whole) ==> t.delivered != s.delivered + [whole]
    ensures t.delivered == s.delivered ==> NotWhole(s, t, whole)
  {
    forall n: nat | n < |whole| && t.delivered == s.delivered + [whole[..n]]
      ensures t.delivered != s.delivered + [whole]
    {
      assert t.delivered[|s.delivered|] == whole[..n];
    }
  }

  /** Round trip: whatever the server would send as one message is delivered as that message when a
      client sends it back, with any masking keys and length forms, with pings and pongs in between, and
      cut anywhere by the network, if and only if it is at most 65536 bytes long and the pings and pongs
      leave the handler undisturbed until its last frame. */
  lemma MessageRoundTrip(h: Handler, data: seq<Byte>, ws: seq<Sent>, bufs: seq<seq<Byte>>, w: World)
    requires Ready(h.parser) && h.session.state == Normal && !h.session.closed && data != []
    requires AllSent(ws) && PingsOnly(Frames(ws)) && DataFrames(Frames(ws)) == Fragments(data, true)
    requires PingsFit(Frames(ws)) && Concat(bufs) == Stream(ws)
    ensures var s, t := h.session, RecvAll(h, bufs, w).session;
      && (t.delivered == s.delivered + [data] <==>
            |data| <= MAX_PAYLOAD_LENGTH && Undisturbed(s.asked, s.waiting, Frames(ws), w))
      && (t.delivered == s.delivered + [data] || NotWhole(s, t, data))
      && t.overrun == s.overrun
  {
    hide TakeAll, RecvAll, Undisturbed, NotWhole, PingsOnly, PingsFit, Fragments, Stream, Frames;
    AnyCutDelivers(h, ws, bufs, w);
    assert [] + data == data;
    StreamArrives(h.session, Frames(ws), data, true, w);
    NotWholeIsNot(h.session, RecvAll(h, bufs, w).session, data);
  }

  // ---------- pings do not matter ----------

  /** Two sessions that differ in what has been asked for and sent. */
  predicate Alike(s: Session, t: Session) {
    s.state == t.state && s.cache == t.cache && s.delivered == t.delivered && s.closed == t.closed
  }

  lemma TakeAlike(s: Session, t: Session, f: Frame, from: nat, w: World)
    requires Alike(s, t) && !f.IsControl() && from <= s.asked && from <= t.asked
    requires forall n :: from <= n ==> w.grants(n)
    ensures Alike(Take(s, f, w), Take(t, f, w)) && from <= Take(s, f, w).asked && from <= Take(t, f, w).asked
  {
    hide TakeDataFrame, Deliver;
    DataAlike(s, t, f, from, w);
    DeliverMeans(TakeDataFrame(s, f.fin, f.opcode, f.payload, w), w);
    DeliverMeans(TakeDataFrame(t, f.fin, f.opcode, f.payload, w), w);
  }

  lemma DataAlike(s: Session, t: Session, f: Frame, from: nat, w: World)
    requires Alike(s, t) && from <= s.asked && from <= t.asked
    requires forall n :: from <= n ==> w.grants(n)
    ensures var s', t' := TakeDataFrame(s, f.fin, f.opcode, f.payload, w), TakeDataFrame(t, f.fin, f.opcode, f.payload, w);
      Alike(s', t') && from <= s'.asked && from <= t'.asked
  {
    hide CloseFrame;
    CloseAlike(s, t, from, w);
    var state := if f.fin then Normal else Continued;
    CloseAlike(s.(state := state), t.(state := state), from, w);
  }

  lemma CloseAlike(s: Session, t: Session, from: nat, w: World)
    requires Alike(s, t) && from <= s.asked && from <= t.asked
    requires forall n :: from <= n ==> w.grants(n)
    ensures var s', t' := CloseFrame(s, w), CloseFrame(t, w); Alike(s', t') && from <= s'.asked && from <= t'.asked
  {
  }

  predicate Calm(waiting: bool, fs: seq<Frame>) {
    waiting ==> forall i :: 0 <= i < |fs| && fs[i].opcode == PONG ==> Expected(fs[i].payload)
  }

  /** As long as every request finds a buffer and pongs are what the server waits for, pings and pongs
      may come between any two frames: state, messages and connection do not depend on them. */
  lemma {:induction false} PingsDoNotMatter(s: Session, t: Session, fs: seq<Frame>, from: nat, w: World)
    requires PingsOnly(fs) && Calm(s.waiting, fs) && Alike(s, t) && from <= s.asked && from <= t.asked
    requires forall n :: from <= n ==> w.grants(n)
    ensures Alike(TakeAll(s, fs, w), TakeAll(t, DataFrames(fs), w))
    decreases |fs|
  {
    hide Take, Expected;
    if fs != [] && !s.closed {
      var next := Take(s, fs[0], w);
      if fs[0].IsControl() {
        assert DataFrames(fs) == DataFrames(fs[1..]);
        ControlFrameMeans(s, fs[0], w);
        PingsDoNotMatter(next, t, fs[1..], from, w);
      } else {
        assert DataFrames(fs)[1..] == DataFrames(fs[1..]);
        TakeAlike(s, t, fs[0], from, w);
        DataLeavesWaiting(s, fs[0], w);
        PingsDoNotMatter(next, Take(t, fs[0], w), fs[1..], from, w);
      }
    }
  }

  lemma DataLeavesWaiting(s: Session, f: Frame, w: World)
    requires !f.IsControl()
    ensures Take(s, f, w).waiting == s.waiting
  {
    DeliverMeans(TakeDataFrame(s, f.fin, f.opcode, f.payload, w), w);
  }

  // ---------- the handler ----------

  class WebSocketHandler {
    const parser: WebSocketParser
    const world: World
    var handle_state_: HandleState
    var payload_cache: seq<Byte>
    var wait_pong_flag: bool
    var delivered: seq<seq<Byte>>  // what the service has been given
    var sent: seq<Frame>           // the pongs and answers sent
    var asked: nat                 // requests for send buffers
    var closed: bool               // the connection has been closed
    ghost var overrun: bool

    ghost function Current(): Session
      reads this
    {
      Session(handle_state_, payload_cache, delivered, sent, asked, wait_pong_flag, closed, overrun)
    }

    ghost function View(): Handler
      reads this, parser
    {
      Handler(parser.View(), Current())
    }

    constructor (w: World)
      ensures fresh(parser) && world == w && Ready(View().parser)
      ensures Current() == Session(Normal, [], [], [], 0, false, false, false)
    {
      parser := new WebSocketParser();
      world := w;
      handle_state_, payload_cache, wait_pong_flag := Normal, [], false;
      delivered, sent, asked, closed, overrun := [], [], 0, false, false;
    }

    method GetSendBuffer() returns (found: bool)
      modifies `asked
      ensures found == world.grants(old(asked)) && asked == old(asked) + 1
    {
      found := world.grants(asked);
      asked := asked + 1;
    }

    method SendCloseFrame()
      modifies this
      ensures Current() == CloseFrame(old(Current()), world)
    {
      var found := GetSendBuffer();
      if !found {
        closed := true;
        return;
      }
      handle_state_ := Closing;
    }

    method SendPongFrame(payload: seq<Byte>)
      modifies this
      ensures Current() == Pong(old(Current()), payload, world)
    {
      var found := GetSendBuffer();
      if !found {
        closed := true;
        return;
      }
      sent := sent + [Frame(true, 0, PONG, payload)];
      overrun := overrun || FrameSize(|payload|) > BUFFER_SIZE;
    }

    /** Send a message through the buffers there are; without one the connection is closed. */
    method SendDataFrame(data: seq<Byte>)
      modifies this
      ensures Current() == SendAll(old(Current()), Fragments(data, true), world)
    {
      if |data| == 0 {
        return;
      }
      var rest, once := data, true;
      while true
        invariant rest != []
        invariant SendAll(Current(), Fragments(rest, once), world) == SendAll(old(Current()), Fragments(data, true), world)
        decreases |rest|
      {
        var found := GetSendBuffer();
        if !found {
          closed := true;
          return;
        }
        var payloadLength := AffordablePayload(|rest|, BUFFER_SIZE);
        var fin, opcode := true, CONTINUATION;
        if payloadLength < |rest| {
          fin := false;
        }
        if once {
          opcode := TEXT;
        }
        ghost var fs := Fragments(rest, once);
        once := false;
        sent := sent + [Frame(fin, 0, opcode, rest[..payloadLength])];
        rest := rest[payloadLength..];
        assert fs == [sent[|sent| - 1]] + Fragments(rest, false);
        if rest == [] {
          break;
        }
      }
    }

    method FrameHandle()
      modifies this
      ensures Current() == TakeDataFrame(old(Current()), parser.fin_flag_, parser.opcode_, parser.data_, world)
    {
      if handle_state_ == Closing { return; }
      if parser.opcode_ == CONTINUATION {
        if handle_state_ == Continued {
          if parser.fin_flag_ {
            handle_state_ := Normal;
          }
          if |payload_cache| + |parser.data_| > MAX_PAYLOAD_LENGTH {
            SendCloseFrame();
          } else {
            payload_cache := payload_cache + parser.data_;
          }
        } else {
          SendCloseFrame();
        }
      } else if parser.opcode_ == TEXT || parser.opcode_ == BINARY {
        if !parser.fin_flag_ {
          handle_state_ := Continued;
        }
        payload_cache := parser.data_;
      } else {
        SendCloseFrame();
      }
    }

    method ControlFrameHandle()
      modifies this
      ensures Current() == TakeControlFrame(old(Current()), parser.opcode_, parser.data_, world)
    {
      if parser.opcode_ == CLOSE {
        if handle_state_ != Closing {
          SendCloseFrame();
        }
        closed := true;
      } else if parser.opcode_ == PING {
        SendPongFrame(parser.data_);
      } else if parser.opcode_ == PONG {
        if wait_pong_flag {
          if CString(parser.data_) != PING_PAYLOAD {
            SendCloseFrame();
          }
          wait_pong_flag := false;
        }
      } else {
        SendCloseFrame();
      }
    }

    /** The part of `RecvDataHandle` that handles a complete frame. */
    method HandleFrame()
      modifies this
      ensures Current() == Dispatch(old(Current()), parser.fin_flag_, parser.opcode_, parser.data_, world)
    {
      hide TakeDataFrame, TakeControlFrame, SendAll, Fragments;
      if parser.opcode_ >= 8 {
        ControlFrameHandle();
      } else {
        FrameHandle();
        if handle_state_ == Normal {
          var result := world.answers(|delivered|);
          delivered := delivered + [payload_cache];
          SendDataFrame(result);
          payload_cache := [];
        }
      }
    }

    method RecvDataHandle(buffer: seq<Byte>)
      requires Listening(View().parser) && View().parser.Resumable()
      modifies this, parser
      ensures View() == Recv(old(View()), buffer, world)
    {
      hide Run, Taken, Dispatch, CloseFrame;
      var rest := buffer;
      while true
        invariant Listening(View().parser) && View().parser.Resumable()
        invariant Recv(View(), rest, world) == Recv(old(View()), buffer, world)
        decreases |rest|
      {
        if closed { return; }
        ghost var before := View();
        var parsed := parser.ParserExecute(rest);
        if parser.IsDone() {
          TakenPositive(before.parser.(error := 0), rest);
          DoneHasNoError(before.parser.(error := 0), rest);
          HandleFrame();
          parser.Reset();
          if parsed < |rest| {
            rest := rest[parsed..];
          } else {
            return;
          }
        } else {
          if parser.error_code_ != 0 {
            SendCloseFrame();
          }
          return;
        }
      }
    }
  }
}
