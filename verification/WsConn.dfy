/** The mutable connection: every method changes the fields exactly as the value functions of `WsSession` say. */
module WsConn {
  import opened Text
  import opened Bytes
  import opened WsFrames
  import opened WsSession

  const DEFAULT_READ_LIMIT: nat := 32 * 1024 * 1024

  /** The keys of the first `n` frames sent. */
  function Keys(env: Env, n: nat): seq<MaskKey> {
    seq<MaskKey>(n, i requires 0 <= i < n => env.keys(i))
  }

  /** All frames sent so far are exactly the bytes sent so far. */
  ghost predicate Accounted(isServer: bool, sent: seq<Frame>, output: seq<byte>, env: Env) {
    && (forall i :: 0 <= i < |sent| ==> |sent[i].payload| <= MAX_INT64)
    && output == EncodeAll(isServer, sent, Keys(env, |sent|))
  }

  lemma {:induction false} EncodeOneMore(isServer: bool, fs: seq<Frame>, keys: seq<MaskKey>, f: Frame, key: MaskKey)
    requires |fs| == |keys| && |f.payload| <= MAX_INT64
    requires forall i :: 0 <= i < |fs| ==> |fs[i].payload| <= MAX_INT64
    ensures EncodeAll(isServer, fs + [f], keys + [key]) == EncodeAll(isServer, fs, keys) + EncodeFrame(isServer, f, key)
  {
    hide EncodeFrame;
    if fs == [] {
      assert EncodeAll(isServer, [], []) == [];
    } else {
      assert (fs + [f])[1..] == fs[1..] + [f] && (keys + [key])[1..] == keys[1..] + [key];
      EncodeOneMore(isServer, fs[1..], keys[1..], f, key);
    }
  }

  lemma SendAccounted(c: Conn, f: Frame, env: Env)
    requires Accounted(c.isServer, c.sent, c.output, env) && |f.payload| <= MAX_INT64
    ensures var c' := Send(c, f, env); Accounted(c'.isServer, c'.sent, c'.output, env)
  {
    hide EncodeFrame, EncodeAll;
    EncodeOneMore(c.isServer, c.sent, Keys(env, |c.sent|), f, env.keys(|c.sent|));
    assert Keys(env, |c.sent| + 1) == Keys(env, |c.sent|) + [env.keys(|c.sent|)];
  }

  /** What a peer reads from the wire is the sequence of frames sent, provided it accepts each. */
  lemma PeerReadsSent(c: Conn, env: Env, limit: nat)
    requires Accounted(c.isServer, c.sent, c.output, env)
    requires forall i :: 0 <= i < |c.sent| ==> Acceptable(c.sent[i], limit)
    ensures DecodeAll(!c.isServer, limit, c.output) == c.sent
  {
    hide EncodeFrame, DecodeFrame;
    StreamRoundTrip(c.isServer, c.sent, Keys(env, |c.sent|), limit);
  }

  /** The frame header, built in a fourteen-byte buffer. */
  method Header(isServer: bool, op: byte, fin: bool, length: nat, key: MaskKey) returns (h: seq<byte>)
    requires length <= MAX_INT64
    ensures var (code, ext) := LengthCode(length);
            h == [FirstByte(op, fin), SecondByte(code, !isServer)] + ext + (if isServer then [] else key)
  {
    PowersOf256();
    hide GetBE, PutBE, Pow256, FirstByte, SecondByte;
    var hdr := new byte[14](_ => 0);
    var n := 2;
    hdr[0] := FirstByte(op, fin);
    if length < 126 {
      hdr[1] := ToByte(length);
    } else if length <= 0xFFFF {
      hdr[1] := 126;
      CopyInto(hdr, 2, PutBE(length, 2));
      n := 4;
    } else {
      hdr[1] := 127;
      CopyInto(hdr, 2, PutBE(length, 8));
      n := 10;
    }
    ghost var (code, ext) := LengthCode(length);
    assert hdr[..n] == [FirstByte(op, fin), code] + ext;
    hdr[1] := SecondByte(hdr[1], !isServer);
    assert hdr[..n] == [FirstByte(op, fin), SecondByte(code, !isServer)] + ext;
    if !isServer {
      CopyInto(hdr, n, key);
      n := n + 4;
    }
    h := hdr[..n];
  }

  /** The caller's slice is not masked in place. */
  method MaskedCopy(key: MaskKey, data: seq<byte>) returns (b: seq<byte>)
    ensures b == Mask(key, 0, data)
  {
    var masked := new byte[|data|](i requires 0 <= i < |data| => data[i]);
    assert masked[..] == data;
    var _ := MaskBytes(key, 0, masked);
    b := masked[..];
  }

  lemma WireParts(isServer: bool, f: Frame, key: MaskKey)
    requires |f.payload| <= MAX_INT64
    ensures var (code, ext) := LengthCode(|f.payload|);
            var header := [FirstByte(f.opcode, f.fin), SecondByte(code, !isServer)] + ext +
                (if isServer then [] else key);
            EncodeFrame(isServer, f, key) == header + (if isServer then f.payload else Mask(key, 0, f.payload))
  {
    hide LengthCode, FirstByte, SecondByte;
  }

  /** The header and the payload, masked in a copy by a client; an empty payload is not written. */
  method FrameBytes(isServer: bool, op: byte, fin: bool, data: seq<byte>, key: MaskKey) returns (b: seq<byte>)
    requires |data| <= MAX_INT64
    ensures b == EncodeFrame(isServer, Frame(fin, op, data), key)
  {
    WireParts(isServer, Frame(fin, op, data), key);
    hide *;
    b := Header(isServer, op, fin, |data|, key);
    if |data| > 0 {
      var body := data;
      if !isServer {
        body := MaskedCopy(key, data);
      }
      b := b + body;
    }
  }

  class Connection {
    const isServer: bool
    const env: Env
    var readLimit: nat
    var fragOpcode: byte
    var fragBuf: seq<byte>
    var closed: bool
    var closeSent: bool
    var input: seq<byte>
    var output: seq<byte>
    var drawn: nat
    ghost var sent: seq<Frame>

    /** The connection as a value. */
    ghost function Model(): (c: Conn)
      reads this
    {
      Conn(isServer, readLimit, fragOpcode, fragBuf, closed, closeSent, input, output, sent)
    }

    ghost predicate Valid()
      reads this
    {
      drawn == |sent| && Accounted(isServer, sent, output, env)
    }

    constructor (isServer: bool, env: Env)
      ensures Valid() && Model() == Conn(isServer, DEFAULT_READ_LIMIT, 0, [], false, false, [], [], [])
              && this.env == env
    {
      this.isServer, this.env, readLimit := isServer, env, DEFAULT_READ_LIMIT;
      fragOpcode, fragBuf, closed, closeSent, input, output, drawn, sent := 0, [], false, false, [], [], 0, [];
    }

    method SetReadLimit(n: int)
      requires Valid()
      modifies this
      ensures Valid() && Model() == old(Model()).(readLimit := if n <= 0 then DEFAULT_READ_LIMIT else n)
    {
      readLimit := if n <= 0 then DEFAULT_READ_LIMIT else n;
    }

    /** `io.ReadFull`: a short stream is drained. */
    method ReadFull(n: nat) returns (ok: bool, b: seq<byte>)
      modifies this`input
      ensures ok == (n <= |old(input)|)
      ensures ok ==> b == old(input)[..n] && input == old(input)[n..]
      ensures !ok ==> input == []
    {
      if n <= |input| {
        ok, b, input := true, input[..n], input[n..];
      } else {
        ok, b, input := false, [], [];
      }
    }

    method WriteFrameLocked(op: byte, data: seq<byte>, fin: bool)
      requires Valid() && |data| <= MAX_INT64
      modifies this
      ensures Valid() && Model() == Send(old(Model()), Frame(fin, op, data), env)
    {
      SendAccounted(Model(), Frame(fin, op, data), env);
      hide EncodeFrame, Accounted;
      var bytes := FrameBytes(isServer, op, fin, data, env.keys(drawn));
      output := output + bytes;
      drawn, sent := drawn + 1, sent + [Frame(fin, op, data)];
    }

    method WriteMessage(op: byte, data: seq<byte>) returns (r: WriteResult)
      requires Valid() && |data| <= MAX_INT64
      modifies this
      ensures Valid() && (Model(), r) == WsSession.WriteMessage(old(Model()), op, data, env)
    {
      hide Send, Accounted;
      if IsControl(op) { return Refused; }
      if closed { return Closed; }
      WriteFrameLocked(op, data, true);
      return Sent;
    }

    method WriteControl(op: byte, data: seq<byte>) returns (r: WriteResult)
      requires Valid()
      modifies this
      ensures Valid() && (Model(), r) == WsSession.WriteControl(old(Model()), op, data, env)
    {
      hide Send, Accounted;
      if !IsControl(op) { return Refused; }
      if |data| > MAX_CONTROL_PAYLOAD { return Refused; }
      if closed { return Closed; }
      WriteFrameLocked(op, data, true);
      return Sent;
    }

    method WriteClose(code: int, text: seq<byte>) returns (r: WriteResult)
      requires Valid()
      modifies this
      ensures Valid() && (Model(), r) == WsSession.WriteClose(old(Model()), code, text, env)
    {
      hide WsSession.WriteControl, ClosePayload;
      if closeSent { return Sent; }
      closeSent := true;
      r := WriteControl(OpClose, ClosePayload(code, text));
    }

    method Close()
      requires Valid()
      modifies this
      ensures Valid() && Model() == old(Model()).(closed := true)
    {
      if !closed { closed := true; }
    }

    method ProtocolError(reason: string) returns (e: Error)
      requires Valid()
      modifies this
      ensures Valid() && (Model(), e) == WsSession.ProtocolError(old(Model()), reason, env)
    {
      hide WsSession.WriteClose, Ascii;
      var _ := WriteClose(CLOSE_PROTOCOL_ERROR, Ascii(reason));
      e := CloseError(CLOSE_PROTOCOL_ERROR, Ascii(reason));
    }

    // ---- reading ----

    method ReadFrame() returns (r: FrameRead)
      requires Valid()
      modifies this
      ensures Valid() && (Model(), r) == WsSession.ReadFrame(old(Model()), env)
    {
      hide GetBE, HasRsv, HasFin, HasMask, OpcodeOf, CodeOf, LegalOpcode, HexDigit, Accounted;
      hide DecodeLength, WsSession.WriteClose, WsSession.ProtocolError;
      ghost var start := input;
      var ok, hdr := ReadFull(2);
      if !ok { return FrameErr(Ended); }
      var op := OpcodeOf(hdr[0]);
      if HasRsv(hdr[0]) {
        var e := ProtocolError("reserved bits set");
        return FrameErr(e);
      }
      if !LegalOpcode(op) {
        var e := ProtocolError("reserved opcode 0x" + [HexDigit(op)]);
        return FrameErr(e);
      }
      r := ReadLength(Frame(HasFin(hdr[0]), op, []), hdr[1]);
    }

    method ReadLength(f: Frame, h1: byte) returns (r: FrameRead)
      requires Valid()
      modifies this
      ensures Valid()
      ensures (Model(), r) == Outcome(old(Model()), DecodeLength(isServer, old(readLimit), f, h1, old(input)), env)
    {
      hide GetBE, HasMask, CodeOf, Accounted, DecodeChecked, WsSession.WriteClose, WsSession.ProtocolError;
      assert input[0..] == input;
      var length: nat := OfByte(CodeOf(h1));
      if length >= 126 {
        var ok, ext := ReadFull(if length == 126 then 2 else 8);
        if !ok { return FrameErr(Ended); }
        length := GetBE(ext);
        if length > MAX_INT64 {
          var e := ProtocolError("payload length MSB set");
          return FrameErr(e);
        }
      }
      r := ReadChecked(f, HasMask(h1), length);
    }

    method ReadChecked(f: Frame, masked: bool, n: nat) returns (r: FrameRead)
      requires Valid()
      modifies this
      ensures Valid()
      ensures (Model(), r) == Outcome(old(Model()), DecodeChecked(isServer, old(readLimit), f, masked, n, old(input)),
                                      env)
    {
      hide IsControl, DecodePayload, Accounted, WsSession.WriteClose, WsSession.ProtocolError;
      var reason := "";
      if IsControl(f.opcode) && !f.fin {
        reason := "fragmented control frame";
      } else if IsControl(f.opcode) && n > MAX_CONTROL_PAYLOAD {
        reason := "control frame payload too large";
      } else if isServer && !masked {
        reason := "unmasked frame from client";
      } else if !isServer && masked {
        reason := "masked frame from server";
      }
      if reason != "" {
        var e := ProtocolError(reason);
        return FrameErr(e);
      }
      if n > readLimit {
        var _ := WriteClose(CLOSE_TOO_BIG, Ascii("message too big"));
        return FrameErr(MessageTooBig);
      }
      r := ReadPayload(f, masked, n);
    }

    method ReadPayload(f: Frame, masked: bool, n: nat) returns (r: FrameRead)
      requires Valid()
      modifies this`input
      ensures Valid() && (Model(), r) == Outcome(old(Model()), DecodePayload(f, masked, n, old(input)), env)
    {
      hide Accounted, Mask;
      ghost var s := input;
      assert masked && 4 + n <= |s| ==> s[4..][..n] == s[4..4 + n] && s[4..][n..] == s[4 + n..];
      assert masked && 4 <= |s| && n == 0 ==> s[4..4 + n] == [];
      var key: MaskKey := [0, 0, 0, 0];
      if masked {
        var ok, k := ReadFull(4);
        if !ok { return FrameErr(Ended); }
        key := k;
      }
      var payload := [];
      if n > 0 {
        var ok, b := ReadFull(n);
        if !ok { return FrameErr(Ended); }
        payload := b;
        if masked { payload := MaskedCopy(key, b); }
      }
      assert n == 0 ==> Mask(key, 0, []) == [];
      r := FrameOk(f.(payload := payload));
    }

    method HandleControl(f: Frame) returns (e: Option<Error>)
      requires Valid()
      modifies this
      ensures Valid() && (Model(), e) == WsSession.HandleControl(old(Model()), f, env)
    {
      hide WsSession.WriteControl, WsSession.HandleClose, Accounted;
      if f.opcode == OpPing {
        var r := WriteControl(OpPong, f.payload);
        return if r.Closed? then Some(ConnClosed) else None;
      }
      if f.opcode == OpClose {
        e := HandleClose(f.payload);
        return;
      }
      return None;
    }

    method HandleClose(payload: seq<byte>) returns (e: Option<Error>)
      requires Valid()
      modifies this
      ensures Valid() && (Model(), e) == WsSession.HandleClose(old(Model()), payload, env)
    {
      hide WsSession.WriteClose, WsSession.ProtocolError, GetBE, Accounted, ValidCloseCode, Ascii;
      if |payload| == 1 {
        var err := ProtocolError("invalid close payload length");
        return Some(err);
      }
      var code: nat, text := CLOSE_NO_STATUS, [];
      if |payload| >= 2 {
        code, text := GetBE(payload[..2]), payload[2..];
        if !ValidCloseCode(code) {
          var _ := WriteClose(CLOSE_PROTOCOL_ERROR, Ascii("invalid close code"));
          return Some(CloseError(CLOSE_PROTOCOL_ERROR, Ascii("invalid close code")));
        }
        if !env.utf8(text) {
          var _ := WriteClose(CLOSE_INVALID_PAYLOAD, Ascii("invalid utf-8"));
          return Some(CloseError(CLOSE_INVALID_PAYLOAD, Ascii("invalid utf-8 in close reason")));
        }
      }
      var echo := if |payload| == 0 then CLOSE_NORMAL else code;
      var _ := WriteClose(echo, []);
      return Some(CloseError(code, text));
    }

    method Deliver(op: byte, data: seq<byte>, reason: string) returns (r: ReadResult)
      requires Valid()
      modifies this
      ensures Valid() && (Model(), r) == WsSession.Deliver(old(Model()), op, data, reason, env)
    {
      hide WsSession.WriteClose, WsSession.ProtocolError, Accounted, Ascii;
      if op == OpText && !env.utf8(data) {
        var _ := WriteClose(CLOSE_INVALID_PAYLOAD, Ascii("invalid utf-8"));
        var e := ProtocolError(reason);
        return ReadErr(e);
      }
      return Message(op, data);
    }

    method TakeData(f: Frame) returns (r: Option<ReadResult>)
      requires Valid()
      modifies this
      ensures Valid() && (Model(), r) == WsSession.TakeData(old(Model()), f, env)
    {
      hide WsSession.WriteClose, WsSession.ProtocolError, WsSession.Deliver, Accounted, Ascii;
      if f.opcode != OpContinuation {
        if fragOpcode != 0 {
          var e := ProtocolError("expected continuation frame");
          return Some(ReadErr(e));
        }
        if f.fin {
          var m := Deliver(f.opcode, f.payload, "invalid utf-8 in text frame");
          return Some(m);
        }
        fragOpcode, fragBuf := f.opcode, f.payload;
        return None;
      }
      if fragOpcode == 0 {
        var e := ProtocolError("unexpected continuation frame");
        return Some(ReadErr(e));
      }
      if |fragBuf| + |f.payload| > readLimit {
        fragOpcode, fragBuf := 0, [];
        var _ := WriteClose(CLOSE_TOO_BIG, Ascii("message too big"));
        return Some(ReadErr(MessageTooBig));
      }
      fragBuf := fragBuf + f.payload;
      if f.fin {
        var op, buf := fragOpcode, fragBuf;
        fragOpcode, fragBuf := 0, [];
        var m := Deliver(op, buf, "invalid utf-8 in text message");
        return Some(m);
      }
      return None;
    }

    /** Reads frames until a message is complete or the connection fails. */
    method ReadMessage() returns (r: ReadResult)
      requires Valid()
      modifies this
      ensures Valid() && (Model(), r) == WsSession.ReadMessage(old(Model()), env)
    {
      hide WsSession.ReadFrame, WsSession.HandleControl, WsSession.TakeData, Accounted, IsControl;
      ghost var start := Model();
      while true
        invariant Valid() && WsSession.ReadMessage(Model(), env) == WsSession.ReadMessage(start, env)
        decreases |input|
      {
        ghost var c := Model();
        var fr := ReadFrame();
        if fr.FrameErr? { return ReadErr(fr.error); }
        if IsControl(fr.frame.opcode) {
          var e := HandleControl(fr.frame);
          if e.Some? { return ReadErr(e.value); }
        } else {
          var m := TakeData(fr.frame);
          if m.Some? { return m.value; }
        }
        assert ReadStep(c, env) == (Model(), None);
      }
    }
  }
}
