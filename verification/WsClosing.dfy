/** The close handshake (sections 5.5.1 and 7.4.1 of RFC 6455). */
module WsClosing {
  import opened Text
  import opened Bytes
  import opened WsFrames
  import opened WsSession
  import opened WsItems

  /** A close frame carrying a code that may appear on the wire. */
  predicate ValidClose(f: Frame) {
    |f.payload| >= 2 && ValidCloseCode(GetBE(f.payload[..2]))
  }

  /** What the peer takes for a close frame: the low four bits decide. */
  predicate IsClose(f: Frame) { f.opcode & 0x0F == OpClose }

  lemma CloseBits()
    ensures forall f: Frame :: (f.opcode == OpClose ==> IsClose(f)) && (f.opcode == OpPong ==> !IsClose(f))
    ensures forall f: Frame :: IsClose(f) ==> IsControl(f.opcode)
  {
  }

  function Closes(fs: seq<Frame>): seq<Frame> {
    if fs == [] then [] else (if IsClose(fs[0]) then [fs[0]] else []) + Closes(fs[1..])
  }

  lemma {:induction false} ClosesAppend(a: seq<Frame>, b: seq<Frame>)
    ensures Closes(a + b) == Closes(a) + Closes(b)
  {
    hide IsClose;
    if a == [] {
      assert a + b == b;
    } else {
      assert (a + b)[1..] == a[1..] + b;
      ClosesAppend(a[1..], b);
    }
  }

  lemma ClosesOfOne(f: Frame)
    ensures Closes([f]) == if IsClose(f) then [f] else []
  {
  }

  /** The close frames that `c'` has sent beyond those of `c`. */
  function NewCloses(c: Conn, c': Conn): seq<Frame> {
    if |c.sent| <= |c'.sent| then Closes(c'.sent[|c.sent|..]) else []
  }

  lemma NewClosesJoin(a: Conn, b: Conn, c: Conn)
    requires a.sent <= b.sent <= c.sent
    ensures NewCloses(a, c) == NewCloses(a, b) + NewCloses(b, c)
  {
    assert c.sent[|a.sent|..] == b.sent[|a.sent|..] + c.sent[|b.sent|..];
    ClosesAppend(b.sent[|a.sent|..], c.sent[|b.sent|..]);
  }

  /** No close frame after one was sent or attempted, at most one otherwise, and only with a valid code. */
  ghost predicate Grew(c: Conn, c': Conn, env: Env) {
    && Tracks(c, c', env) && (c.closeSent ==> c'.closeSent)
    && var fs := NewCloses(c, c');
       |fs| <= 1 && (fs != [] ==> !c.closeSent && c'.closeSent && ValidClose(fs[0]))
  }

  lemma GrewTransitive(a: Conn, b: Conn, c: Conn, env: Env)
    requires Grew(a, b, env) && Grew(b, c, env)
    ensures Grew(a, c, env)
  {
    TracksTransitive(a, b, c, env);
    NewClosesJoin(a, b, c);
    hide Tracks, NewCloses;
  }

  lemma TracksTransitive(a: Conn, b: Conn, c: Conn, env: Env)
    requires Tracks(a, b, env) && Tracks(b, c, env)
    ensures Tracks(a, c, env)
  {
    hide EncodeFrame, EncodeAll;
    var f, g := b.sent[|a.sent|..], c.sent[|b.sent|..];
    var j, k := KeysFrom(env, |a.sent|, |f|), KeysFrom(env, |b.sent|, |g|);
    assert c.sent[|a.sent|..] == f + g && KeysFrom(env, |a.sent|, |f + g|) == j + k;
    EncodeAllAppend(a.isServer, f, g, j, k);
  }

  lemma TracksReflexive(c: Conn, env: Env)
    ensures Tracks(c, c, env)
  {
    assert c.sent[|c.sent|..] == [] && KeysFrom(env, |c.sent|, 0) == [];
  }

  lemma SendTracks(c: Conn, f: Frame, env: Env)
    requires |f.payload| <= MAX_INT64
    ensures Tracks(c, Send(c, f, env), env)
  {
    hide EncodeFrame;
    var c' := Send(c, f, env);
    assert c'.sent[|c.sent|..] == [f] && KeysFrom(env, |c.sent|, 1) == [env.keys(|c.sent|)];
    assert EncodeAll(c.isServer, [f], [env.keys(|c.sent|)]) == EncodeFrame(c.isServer, f, env.keys(|c.sent|));
  }

  /** Fields other than those on the wire do not matter. */
  lemma TracksReader(c: Conn, c1: Conn, c': Conn, env: Env)
    requires c1.sent == c.sent && c1.output == c.output && c1.isServer == c.isServer && Tracks(c1, c', env)
    ensures Tracks(c, c', env)
  {
  }

  /** The code is cut to 16 bits. */
  lemma CodeOnWire(code: int, text: seq<byte>)
    ensures GetBE(ClosePayload(code, text)[..2]) == code % 0x1_0000 && ClosePayload(code, text)[2..] == text
  {
    hide PutBE, GetBE, Pow256;
    TwoBytes(code % 0x1_0000);
    var b := PutBE(code % 0x1_0000, 2);
    assert (b + text)[..2] == b && (b + text)[2..] == text;
  }

  /** Exactly when `WriteClose` puts a close frame on the wire. A reason over 123 bytes uses up the only attempt
      without sending anything. */
  lemma WriteCloseExact(c: Conn, code: int, text: seq<byte>, env: Env)
    ensures var c' := WriteClose(c, code, text, env).0;
            && c'.closeSent
            && if !c.closeSent && !c.closed && |text| <= 123 then
                 c' == Send(c.(closeSent := true), Frame(true, OpClose, ClosePayload(code, text)), env)
               else c' == c.(closeSent := true)
  {
    hide EncodeFrame;
    ControlBits();
  }

  lemma SendCloses(c: Conn, f: Frame, env: Env)
    requires |f.payload| <= MAX_INT64
    ensures NewCloses(c, Send(c, f, env)) == if IsClose(f) then [f] else []
  {
    hide EncodeFrame, IsClose;
    assert Send(c, f, env).sent[|c.sent|..] == [f];
    ClosesOfOne(f);
  }

  lemma WriteCloseGrew(c: Conn, code: int, text: seq<byte>, env: Env)
    requires ValidCloseCode(code)
    ensures Grew(c, WriteClose(c, code, text, env).0, env)
  {
    hide EncodeFrame, WriteClose;
    WriteCloseExact(c, code, text, env);
    CodeOnWire(code, text);
    var c1, f := c.(closeSent := true), Frame(true, OpClose, ClosePayload(code, text));
    if |text| <= 123 {
      SendTracks(c1, f, env);
      SendCloses(c1, f, env);
    }
    CloseBits();
    TracksReflexive(c1, env);
    TracksReader(c, c1, WriteClose(c, code, text, env).0, env);
    assert NewCloses(c, c1) == [];
    hide Tracks;
  }

  lemma PongGrew(c: Conn, data: seq<byte>, env: Env)
    ensures Grew(c, WriteControl(c, OpPong, data, env).0, env)
  {
    hide EncodeFrame;
    GrewReflexive(c, env);
    CloseBits();
    if |data| <= MAX_CONTROL_PAYLOAD {
      SendTracks(c, Frame(true, OpPong, data), env);
      SendCloses(c, Frame(true, OpPong, data), env);
    }
    hide Tracks;
  }

  lemma ProtocolErrorGrew(c: Conn, reason: string, env: Env)
    ensures Grew(c, ProtocolError(c, reason, env).0, env)
  {
    hide WriteClose;
    WriteCloseGrew(c, CLOSE_PROTOCOL_ERROR, Ascii(reason), env);
  }

  lemma HandleControlGrew(c: Conn, f: Frame, env: Env)
    ensures Grew(c, HandleControl(c, f, env).0, env)
  {
    hide WriteClose, WriteControl, HandleClose, Grew;
    GrewReflexive(c, env);
    PongGrew(c, f.payload, env);
    HandleCloseGrew(c, f.payload, env);
  }

  lemma HandleCloseGrew(c: Conn, payload: seq<byte>, env: Env)
    ensures Grew(c, HandleClose(c, payload, env).0, env)
  {
    hide WriteClose, ProtocolError, Grew, Ascii;
    forall code: int, text | ValidCloseCode(code) ensures Grew(c, WriteClose(c, code, text, env).0, env) {
      WriteCloseGrew(c, code, text, env);
    }
    ProtocolErrorGrew(c, "invalid close payload length", env);
  }

  lemma GrewReflexive(c: Conn, env: Env)
    ensures Grew(c, c, env)
  {
    TracksReflexive(c, env);
    assert c.sent[|c.sent|..] == [];
  }

  /** Reader fields do not matter. */
  lemma GrewReader(c: Conn, c1: Conn, c': Conn, env: Env)
    requires c1.sent == c.sent && c1.output == c.output && c1.closeSent == c.closeSent && c1.isServer == c.isServer
    requires Grew(c1, c', env)
    ensures Grew(c, c', env)
  {
    TracksReader(c, c1, c', env);
    hide Tracks;
  }

  lemma DeliverGrew(c: Conn, op: byte, data: seq<byte>, reason: string, env: Env)
    ensures Grew(c, Deliver(c, op, data, reason, env).0, env)
  {
    hide WriteClose, ProtocolError, Grew, Ascii;
    GrewReflexive(c, env);
    var c1 := WriteClose(c, CLOSE_INVALID_PAYLOAD, Ascii("invalid utf-8"), env).0;
    WriteCloseGrew(c, CLOSE_INVALID_PAYLOAD, Ascii("invalid utf-8"), env);
    ProtocolErrorGrew(c1, reason, env);
    GrewTransitive(c, c1, ProtocolError(c1, reason, env).0, env);
  }

  lemma TakeDataGrew(c: Conn, f: Frame, env: Env)
    ensures Grew(c, TakeData(c, f, env).0, env)
  {
    hide WriteClose, ProtocolError, Deliver, Grew, Ascii;
    var c0 := c.(fragOpcode := 0, fragBuf := []);
    GrewReflexive(c, env);
    ProtocolErrorGrew(c, "expected continuation frame", env);
    ProtocolErrorGrew(c, "unexpected continuation frame", env);
    DeliverGrew(c, f.opcode, f.payload, "invalid utf-8 in text frame", env);
    DeliverGrew(c0, c.fragOpcode, c.fragBuf + f.payload, "invalid utf-8 in text message", env);
    WriteCloseGrew(c0, CLOSE_TOO_BIG, Ascii("message too big"), env);
    GrewReader(c, c0, WriteClose(c0, CLOSE_TOO_BIG, Ascii("message too big"), env).0, env);
    GrewReader(c, c0, Deliver(c0, c.fragOpcode, c.fragBuf + f.payload, "invalid utf-8 in text message", env).0, env);
    GrewReader(c, c.(fragOpcode := f.opcode, fragBuf := f.payload), c.(fragOpcode := f.opcode, fragBuf := f.payload),
               env) by {
      GrewReflexive(c.(fragOpcode := f.opcode, fragBuf := f.payload), env);
    }
    GrewReader(c, c.(fragBuf := c.fragBuf + f.payload), c.(fragBuf := c.fragBuf + f.payload), env) by {
      GrewReflexive(c.(fragBuf := c.fragBuf + f.payload), env);
    }
  }

  lemma ReadStepGrew(c: Conn, env: Env)
    ensures Grew(c, ReadStep(c, env).0, env)
  {
    hide WriteClose, ProtocolError, DecodeFrame, HandleControl, TakeData, Grew, Ascii, IsControl;
    match DecodeFrame(c.isServer, c.readLimit, c.input)
    case Short => GrewReader(c, c.(input := []), c.(input := []), env) by { GrewReflexive(c.(input := []), env); }
    case Bad(reason, rest) =>
      var c1 := c.(input := rest);
      ProtocolErrorGrew(c1, reason, env);
      GrewReader(c, c1, ProtocolError(c1, reason, env).0, env);
    case TooBig(rest) =>
      var c1 := c.(input := rest);
      WriteCloseGrew(c1, CLOSE_TOO_BIG, Ascii("message too big"), env);
      GrewReader(c, c1, WriteClose(c1, CLOSE_TOO_BIG, Ascii("message too big"), env).0, env);
    case Got(f, rest) =>
      var c1 := c.(input := rest);
      HandleControlGrew(c1, f, env);
      TakeDataGrew(c1, f, env);
      GrewReader(c, c1, HandleControl(c1, f, env).0, env);
      GrewReader(c, c1, TakeData(c1, f, env).0, env);
  }

  /** Reading, whatever the peer sends, adds at most one close frame, with a valid code, and none once one was sent. */
  lemma {:induction false} ReadMessageGrew(c: Conn, env: Env)
    ensures Grew(c, ReadMessage(c, env).0, env)
    decreases |c.input|
  {
    hide ReadStep, Grew;
    ReadStepGrew(c, env);
    var (c', r) := ReadStep(c, env);
    if r.None? {
      ReadMessageGrew(c', env);
      GrewTransitive(c, c', ReadMessage(c', env).0, env);
    }
  }

  // ---- the handshake ----

  function CloseFrame(code: int, text: seq<byte>): (f: Frame)
    ensures |f.payload| == 2 + |text|
  {
    Frame(true, OpClose, ClosePayload(code, text))
  }

  /** The bytes that `c'` has sent beyond those of `c`. */
  function NewBytes(c: Conn, c': Conn): seq<byte> {
    if |c.output| <= |c'.output| then c'.output[|c.output|..] else []
  }

  lemma SendWire(c: Conn, c0: Conn, f: Frame, env: Env)
    requires |f.payload| <= MAX_INT64 && c0.output == c.output
    ensures NewBytes(c, Send(c0, f, env)) == EncodeFrame(c0.isServer, f, env.keys(|c0.sent|))
  {
    hide EncodeFrame;
  }

  /** Reading a valid close frame reports its code and reason; it is echoed unless a close was already sent. */
  lemma ReadsClose(c: Conn, peer: bool, code: nat, text: seq<byte>, key: MaskKey, rest: seq<byte>, env: Env)
    requires !c.closed && 2 + |text| <= c.readLimit && peer == !c.isServer
    requires ValidCloseCode(code) && |text| <= 123 && env.utf8(text)
    requires c.input == EncodeFrame(peer, CloseFrame(code, text), key) + rest
    ensures var (c', r) := ReadMessage(c, env);
            && r == ReadErr(CloseError(code, text)) && c'.input == rest && c'.closeSent
            && if c.closeSent then c' == c.(input := rest)
               else c' == Send(c.(input := rest, closeSent := true), CloseFrame(code, []), env)
  {
    var f := CloseFrame(code, text);
    hide EncodeFrame, DecodeFrame, ReadFrame, IsControl, WriteClose, ClosePayload, GetBE, PutBE, Pow256;
    ControlBits();
    FrameAhead(c, f, key, rest, env);
    CodeOnWire(code, text);
    WriteCloseExact(c.(input := rest), code, [], env);
    assert HandleControl(c.(input := rest), f, env) == HandleClose(c.(input := rest), f.payload, env);
  }

  /** Which codes a peer may close with. Any other one is reported as a protocol error, which is also what goes out. */
  lemma ReceivedCodes(c: Conn, peer: bool, hi: byte, lo: byte, text: seq<byte>, key: MaskKey, rest: seq<byte>, env: Env)
    requires !c.closed && !c.closeSent && 2 + |text| <= c.readLimit && peer == !c.isServer
    requires |text| <= 123 && env.utf8(text)
    requires c.input == EncodeFrame(peer, Frame(true, OpClose, [hi, lo] + text), key) + rest
    ensures var (c', r) := ReadMessage(c, env);
            var code, closing := OfByte(hi) * 256 + OfByte(lo), c.(input := rest, closeSent := true);
            if 1000 <= code <= 1003 || 1007 <= code <= 1014 || 3000 <= code <= 4999
            then r == ReadErr(CloseError(code, text)) && c' == Send(closing, CloseFrame(code, []), env)
            else r == ReadErr(CloseError(1002, Ascii("invalid close code")))
                 && c' == Send(closing, CloseFrame(1002, Ascii("invalid close code")), env)
  {
    hide *;
    var payload, code, c1 := [hi, lo] + text, OfByte(hi) * 256 + OfByte(lo), c.(input := rest);
    var f, reason := Frame(true, OpClose, payload), Ascii("invalid close code");
    PayloadAcceptable(payload, c.readLimit);
    FrameAhead(c, f, key, rest, env);
    CodeBytes(hi, lo, text);
    EchoSent(c1, code, [], env);
    EchoSent(c1, 1002, reason, env);
    CodeHandled(c1, code, payload, env);
    CloseTurn(c, f, c1, env);
  }

  lemma EchoSent(c: Conn, code: nat, text: seq<byte>, env: Env)
    requires !c.closed && !c.closeSent && (text == [] || text == Ascii("invalid close code"))
    ensures WriteClose(c, code, text, env).0 == Send(c.(closeSent := true), CloseFrame(code, text), env)
  {
    WriteCloseExact(c, code, text, env);
    hide Send, WriteClose;
    assert |Ascii("invalid close code")| == 18;
  }

  lemma PayloadAcceptable(payload: seq<byte>, limit: nat)
    requires |payload| <= 125 && |payload| <= limit
    ensures Acceptable(Frame(true, OpClose, payload), limit) && |payload| <= MAX_INT64
  {
    ControlBits();
  }

  /** One close frame ends the reading loop. */
  lemma CloseTurn(c: Conn, f: Frame, c1: Conn, env: Env)
    requires ReadFrame(c, env) == (c1, FrameOk(f)) && f.opcode == OpClose && HandleClose(c1, f.payload, env).1.Some?
    ensures ReadMessage(c, env) ==
            (HandleClose(c1, f.payload, env).0, ReadErr(HandleClose(c1, f.payload, env).1.value))
  {
    hide ReadFrame, IsControl, HandleClose;
    ControlBits();
  }

  lemma CodeHandled(c: Conn, code: nat, payload: seq<byte>, env: Env)
    requires |payload| >= 2 && GetBE(payload[..2]) == code && env.utf8(payload[2..])
    ensures HandleClose(c, payload, env) ==
            if 1000 <= code <= 1003 || 1007 <= code <= 1014 || 3000 <= code <= 4999
            then (WriteClose(c, code, [], env).0, Some(CloseError(code, payload[2..])))
            else (WriteClose(c, 1002, Ascii("invalid close code"), env).0,
                  Some(CloseError(1002, Ascii("invalid close code"))))
  {
    hide WriteClose, GetBE;
  }

  lemma CodeBytes(hi: byte, lo: byte, text: seq<byte>)
    ensures var payload := [hi, lo] + text;
            GetBE(payload[..2]) == OfByte(hi) * 256 + OfByte(lo) && payload[2..] == text
  {
    assert ([hi, lo] + text)[..2] == [hi] + [lo] && [] + [hi] == [hi];
    GetAppend([hi], lo);
    GetAppend([], hi);
  }

  lemma WriteCloseSends(a: Conn, code: nat, text: seq<byte>, env: Env)
    requires !a.closed && !a.closeSent && |text| <= 123
    ensures var a1 := WriteClose(a, code, text, env).0;
            && a1 == Send(a.(closeSent := true), CloseFrame(code, text), env)
            && NewBytes(a, a1) == EncodeFrame(a.isServer, CloseFrame(code, text), env.keys(|a.sent|))
  {
    hide EncodeFrame, WriteClose, NewBytes;
    WriteCloseExact(a, code, text, env);
    SendWire(a, a.(closeSent := true), CloseFrame(code, text), env);
  }

  /** An ill-formed text message is refused with 1007 on the wire while the caller is told 1002. */
  lemma IllFormedTextCodes(c: Conn, data: seq<byte>, reason: string, env: Env)
    requires !c.closed && !c.closeSent && !env.utf8(data)
    ensures var (c', r) := Deliver(c, OpText, data, reason, env);
            && r == ReadErr(CloseError(CLOSE_PROTOCOL_ERROR, Ascii(reason)))
            && c'.sent == c.sent + [CloseFrame(CLOSE_INVALID_PAYLOAD, Ascii("invalid utf-8"))]
  {
    hide EncodeFrame, ClosePayload;
    WriteCloseSends(c, CLOSE_INVALID_PAYLOAD, Ascii("invalid utf-8"), env);
  }
}
