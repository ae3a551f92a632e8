/** The code a connection puts on the wire against the code its reader is told. */
module WsCodes {
  import opened Text
  import opened Bytes
  import opened WsFrames
  import opened WsSession
  import opened WsItems
  import opened WsMessages
  import opened WsClosing

  /** The next frame on the stream, if a whole acceptable one is there. */
  function NextFrame(c: Conn): Option<Frame> {
    match DecodeFrame(c.isServer, c.readLimit, c.input)
    case Got(f, _) => Some(f)
    case _ => None
  }

  /** The next frame completes a text message that is not well-formed. */
  predicate IllFormedText(c: Conn, env: Env) {
    var f := NextFrame(c);
    && f.Some? && f.value.fin
    && ((f.value.opcode == OpText && c.fragOpcode == 0 && !env.utf8(f.value.payload)) ||
        (f.value.opcode == OpContinuation && c.fragOpcode == OpText && |c.fragBuf| + |f.value.payload| <= c.readLimit
         && !env.utf8(c.fragBuf + f.value.payload)))
  }

  /** The next frame is a close frame without a status. */
  predicate Statusless(c: Conn) {
    NextFrame(c).Some? && NextFrame(c).value.opcode == OpClose && NextFrame(c).value.payload == []
  }

  /** The one frame that was sent, if any, is a close frame with this code. */
  ghost predicate Sends(c: Conn, c': Conn, code: nat) {
    c'.sent == c.sent ||
    (|c'.sent| == |c.sent| + 1 && c.sent <= c'.sent && var f := c'.sent[|c.sent|];
     f.opcode == OpClose && |f.payload| >= 2 && GetBE(f.payload[..2]) == code)
  }

  lemma WriteCloseSendsCode(c: Conn, code: nat, text: seq<byte>, env: Env)
    requires code < 0x1_0000
    ensures Sends(c, WriteClose(c, code, text, env).0, code) && WriteClose(c, code, text, env).0.closeSent
    ensures c.closeSent ==> WriteClose(c, code, text, env).0 == c
  {
    hide EncodeFrame, WriteClose;
    WriteCloseExact(c, code, text, env);
    CodeOnWire(code, text);
  }

  /** The code a protocol error reports is the one it sends. */
  lemma ProtocolErrorSendsCode(c: Conn, reason: string, env: Env)
    ensures var (c', e) := ProtocolError(c, reason, env);
            e.CloseError? && e.code == CLOSE_PROTOCOL_ERROR && Sends(c, c', e.code) && (c.closeSent ==> c' == c)
  {
    hide WriteClose, Ascii;
    WriteCloseSendsCode(c, CLOSE_PROTOCOL_ERROR, Ascii(reason), env);
  }

  lemma HandleCloseSendsCode(c: Conn, payload: seq<byte>, env: Env)
    ensures var (c', e) := HandleClose(c, payload, env);
            && e.Some? && e.value.CloseError?
            && (if payload == [] then e.value.code == CLOSE_NO_STATUS && Sends(c, c', CLOSE_NORMAL)
                else Sends(c, c', e.value.code))
  {
    hide WriteClose, ProtocolError, Ascii, GetBE, Sends;
    forall code: nat, text | code < 0x1_0000 ensures Sends(c, WriteClose(c, code, text, env).0, code) {
      WriteCloseSendsCode(c, code, text, env);
    }
    ProtocolErrorSendsCode(c, "invalid close payload length", env);
  }

  lemma DeliverSendsCode(c: Conn, op: byte, data: seq<byte>, reason: string, env: Env)
    ensures var (c', r) := Deliver(c, op, data, reason, env);
            if op == OpText && !env.utf8(data) then
              r.ReadErr? && r.error.CloseError? && r.error.code == CLOSE_PROTOCOL_ERROR &&
              Sends(c, c', CLOSE_INVALID_PAYLOAD)
            else r.Message?
  {
    hide WriteClose, ProtocolError, Ascii;
    var c1 := WriteClose(c, CLOSE_INVALID_PAYLOAD, Ascii("invalid utf-8"), env).0;
    WriteCloseSendsCode(c, CLOSE_INVALID_PAYLOAD, Ascii("invalid utf-8"), env);
    ProtocolErrorSendsCode(c1, reason, env);
  }

  lemma TakeDataSendsCode(c: Conn, f: Frame, env: Env)
    requires f.opcode == OpContinuation || f.opcode == OpText || f.opcode == OpBinary
    ensures var (c', r) := TakeData(c, f, env);
            var illFormed := f.fin && ((f.opcode == OpText && c.fragOpcode == 0 && !env.utf8(f.payload)) ||
              (f.opcode == OpContinuation && c.fragOpcode == OpText && |c.fragBuf| + |f.payload| <= c.readLimit
               && !env.utf8(c.fragBuf + f.payload)));
            r.Some? && r.value.ReadErr? && r.value.error.CloseError? ==>
              && r.value.error.code == CLOSE_PROTOCOL_ERROR
              && Sends(c, c', if illFormed then CLOSE_INVALID_PAYLOAD else CLOSE_PROTOCOL_ERROR)
  {
    hide WriteClose, ProtocolError, Ascii, Deliver, Sends;
    ProtocolErrorSendsCode(c, "expected continuation frame", env);
    ProtocolErrorSendsCode(c, "unexpected continuation frame", env);
    DeliverSendsCode(c, f.opcode, f.payload, "invalid utf-8 in text frame", env);
    var c0 := c.(fragOpcode := 0, fragBuf := []);
    var c' := Deliver(c0, c.fragOpcode, c.fragBuf + f.payload, "invalid utf-8 in text message", env).0;
    DeliverSendsCode(c0, c.fragOpcode, c.fragBuf + f.payload, "invalid utf-8 in text message", env);
    SendsReader(c, c0, c', CLOSE_INVALID_PAYLOAD);
  }

  lemma SendsReader(c: Conn, c0: Conn, c': Conn, code: nat)
    requires c0.sent == c.sent
    ensures Sends(c0, c', code) ==> Sends(c, c', code)
  {
  }

  /** Whenever reading both sends a close frame and reports a close error, the two codes agree, except exactly for an
      ill-formed text message, which sends 1007 and reports 1002, and a close without a status, which sends 1000 and
      reports 1005. */
  lemma CodesAgreeExactly(c: Conn, env: Env)
    ensures var (c', r) := ReadStep(c, env);
            r.Some? && r.value.ReadErr? && r.value.error.CloseError? && c'.sent != c.sent ==>
              var code := r.value.error.code;
              && |c'.sent| == |c.sent| + 1 && c'.sent[|c.sent|].opcode == OpClose && |c'.sent[|c.sent|].payload| >= 2
              && var sent := GetBE(c'.sent[|c.sent|].payload[..2]);
                 && (sent == code <==> !IllFormedText(c, env) && !Statusless(c))
                 && (IllFormedText(c, env) ==> sent == CLOSE_INVALID_PAYLOAD && code == CLOSE_PROTOCOL_ERROR)
                 && (Statusless(c) ==> sent == CLOSE_NORMAL && code == CLOSE_NO_STATUS)
  {
    hide WriteClose, WriteControl, ProtocolError, DecodeFrame, HandleClose, TakeData, Ascii, GetBE, IsControl;
    ControlBits();
    match DecodeFrame(c.isServer, c.readLimit, c.input)
    case Got(f, rest) =>
      var c1 := c.(input := rest);
      GotAcceptable(c.isServer, c.readLimit, c.input);
      DataOpcodes(f.opcode);
      if IsControl(f.opcode) {
        HandleCloseSendsCode(c1, f.payload, env);
        SendsReader(c, c1, HandleClose(c1, f.payload, env).0, CLOSE_NORMAL);
      } else {
        TakeDataSendsCode(c1, f, env);
        assert f.opcode == OpContinuation || f.opcode == OpText || f.opcode == OpBinary;
      }
    case Bad(reason, rest) => ProtocolErrorSendsCode(c.(input := rest), reason, env);
    case _ =>
  }

  // ---- too much data ----

  /** A frame over the read limit is refused before its payload is read, with 1009 on the wire. */
  lemma TooBigFrame(c: Conn, f: Frame, key: MaskKey, rest: seq<byte>, env: Env)
    requires !c.closed && !c.closeSent && c.readLimit < |f.payload| <= MAX_INT64
    requires LegalOpcode(f.opcode) && !IsControl(f.opcode)
    requires c.input == EncodeFrame(!c.isServer, f, key) + rest
    ensures var (c', r) := ReadMessage(c, env);
            && r == ReadErr(MessageTooBig) && c'.closeSent
            && c'.sent == c.sent + [CloseFrame(1009, Ascii("message too big"))]
  {
    hide *;
    TooBigDecoded(c, f, key, rest);
    var d := DecodeFrame(c.isServer, c.readLimit, c.input);
    TooBigRead(c, d.rest, env);
    TooBigSent(c.(input := d.rest), env);
  }

  lemma TooBigDecoded(c: Conn, f: Frame, key: MaskKey, rest: seq<byte>)
    requires c.readLimit < |f.payload| <= MAX_INT64 && LegalOpcode(f.opcode) && !IsControl(f.opcode)
    requires c.input == EncodeFrame(!c.isServer, f, key) + rest
    ensures DecodeFrame(c.isServer, c.readLimit, c.input).TooBig?
  {
    var isServer := !c.isServer;
    var (code, ext) := LengthCode(|f.payload|);
    var h0, h1 := FirstByte(f.opcode, f.fin), SecondByte(code, !isServer);
    HeaderFacts(isServer, f, |f.payload|);
    EncodedParts(isServer, f, key, rest);
    hide EncodeFrame, LengthCode, DecodeFrame, FirstByte, SecondByte, IsControl, LegalOpcode;
    HeaderDecoded(c.isServer, c.readLimit, h0, h1, ext, Body(isServer, f, key) + rest);
  }

  lemma TooBigRead(c: Conn, rest: seq<byte>, env: Env)
    requires DecodeFrame(c.isServer, c.readLimit, c.input) == TooBig(rest)
    ensures ReadMessage(c, env) ==
            (WriteClose(c.(input := rest), 1009, Ascii("message too big"), env).0, ReadErr(MessageTooBig))
  {
    hide DecodeFrame, WriteClose, Ascii;
  }

  lemma TooBigSent(c: Conn, env: Env)
    requires !c.closed && !c.closeSent
    ensures var c' := WriteClose(c, 1009, Ascii("message too big"), env).0;
            c'.closeSent && c'.sent == c.sent + [CloseFrame(1009, Ascii("message too big"))]
  {
    WriteCloseExact(c, 1009, Ascii("message too big"), env);
    assert |Ascii("message too big")| == 15;
    hide EncodeFrame, WriteClose, ClosePayload;
  }

  /** So is a message whose fragments go over the limit together, and what was collected is dropped. */
  lemma TooBigMessage(c: Conn, f: Frame, key: MaskKey, rest: seq<byte>, env: Env)
    requires !c.closed && !c.closeSent && Acceptable(f, c.readLimit) && f.opcode == OpContinuation
    requires c.fragOpcode != 0 && c.readLimit < |c.fragBuf| + |f.payload|
    requires |f.payload| <= MAX_INT64 && c.input == EncodeFrame(!c.isServer, f, key) + rest
    ensures var (c', r) := ReadMessage(c, env);
            && r == ReadErr(MessageTooBig) && c'.closeSent && c'.fragOpcode == 0 && c'.fragBuf == []
            && c'.sent == c.sent + [CloseFrame(1009, Ascii("message too big"))]
  {
    hide *;
    FrameAhead(c, f, key, rest, env);
    var c1 := c.(input := rest, fragOpcode := 0, fragBuf := []);
    OverLimit(c, c.(input := rest), f, env);
    TooBigSent(c1, env);
    CloseKeepsFrag(c1, env);
  }

  lemma OverLimit(c: Conn, c1: Conn, f: Frame, env: Env)
    requires ReadFrame(c, env) == (c1, FrameOk(f)) && f.opcode == OpContinuation && c1.fragOpcode != 0
    requires c1.readLimit < |c1.fragBuf| + |f.payload|
    ensures ReadMessage(c, env) ==
            (WriteClose(c1.(fragOpcode := 0, fragBuf := []), 1009, Ascii("message too big"), env).0,
             ReadErr(MessageTooBig))
  {
    hide ReadFrame, WriteClose, Ascii, IsControl;
    ControlBits();
  }

  lemma CloseKeepsFrag(c: Conn, env: Env)
    ensures var c' := WriteClose(c, 1009, Ascii("message too big"), env).0;
            c'.fragOpcode == c.fragOpcode && c'.fragBuf == c.fragBuf
  {
    hide EncodeFrame, ClosePayload, Ascii;
  }
}
