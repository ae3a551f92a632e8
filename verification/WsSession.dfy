/** One end of a WebSocket connection as a value: sending, closing, reassembling fragments (sections 5.4, 5.5 and 7 of
    RFC 6455). `WsConn` holds the mutable connection and proves each method equal to these functions. */
module WsSession {
  import opened Text
  import opened Bytes
  import opened WsFrames

  const CLOSE_NORMAL := 1000
  const CLOSE_PROTOCOL_ERROR := 1002
  const CLOSE_NO_STATUS := 1005
  const CLOSE_ABNORMAL := 1006
  const CLOSE_INVALID_PAYLOAD := 1007
  const CLOSE_TOO_BIG := 1009

  /** Random mask keys, one per frame sent, and the UTF-8 test of the standard library. */
  datatype Env = Env(keys: nat -> MaskKey, utf8: seq<byte> -> bool)

  /** `input` is what the peer sent and we have not read; `output` all bytes we sent, `sent` the frames in them. */
  datatype Conn = Conn(isServer: bool, readLimit: nat, fragOpcode: byte, fragBuf: seq<byte>, closed: bool,
                       closeSent: bool, input: seq<byte>, output: seq<byte>, sent: seq<Frame>)

  datatype Error = Ended | MessageTooBig | CloseError(code: nat, text: seq<byte>) | ConnClosed

  datatype WriteResult = Sent | Closed | Refused

  datatype FrameRead = FrameOk(frame: Frame) | FrameErr(error: Error)

  datatype ReadResult = Message(opcode: byte, data: seq<byte>) | ReadErr(error: Error)

  /** `wsValidCloseCode`. */
  predicate ValidCloseCode(code: int) {
    3000 <= code <= 4999 || (1000 <= code <= 1014 && code != 1004 && code != CLOSE_NO_STATUS && code != CLOSE_ABNORMAL)
  }

  // ---- writing ----

  function Send(c: Conn, f: Frame, env: Env): Conn
    requires |f.payload| <= MAX_INT64
  {
    c.(output := c.output + EncodeFrame(c.isServer, f, env.keys(|c.sent|)), sent := c.sent + [f])
  }

  function WriteMessage(c: Conn, op: byte, data: seq<byte>, env: Env): (Conn, WriteResult)
    requires |data| <= MAX_INT64
  {
    if IsControl(op) then (c, Refused)
    else if c.closed then (c, Closed)
    else (Send(c, Frame(true, op, data), env), Sent)
  }

  function WriteControl(c: Conn, op: byte, data: seq<byte>, env: Env): (Conn, WriteResult) {
    if !IsControl(op) || |data| > MAX_CONTROL_PAYLOAD then (c, Refused)
    else if c.closed then (c, Closed)
    else (Send(c, Frame(true, op, data), env), Sent)
  }

  function ClosePayload(code: int, text: seq<byte>): (p: seq<byte>)
    ensures |p| == 2 + |text|
  {
    PowersOf256();
    PutBE(code % 0x1_0000, 2) + text
  }

  /** A close frame is attempted once; later calls do nothing. */
  function WriteClose(c: Conn, code: int, text: seq<byte>, env: Env): (Conn, WriteResult) {
    if c.closeSent then (c, Sent)
    else WriteControl(c.(closeSent := true), OpClose, ClosePayload(code, text), env)
  }

  function ProtocolError(c: Conn, reason: string, env: Env): (Conn, Error) {
    (WriteClose(c, CLOSE_PROTOCOL_ERROR, Ascii(reason), env).0, CloseError(CLOSE_PROTOCOL_ERROR, Ascii(reason)))
  }

  // ---- what is on the wire ----

  /** The keys of `n` frames, the first of them with number `at`. */
  function KeysFrom(env: Env, at: nat, n: nat): seq<MaskKey> {
    seq<MaskKey>(n, i requires 0 <= i < n => env.keys(at + i))
  }

  /** The frames sent since `c` are exactly the bytes sent since. */
  ghost predicate Tracks(c: Conn, c': Conn, env: Env) {
    && c'.isServer == c.isServer && c.sent <= c'.sent
    && var fs := c'.sent[|c.sent|..];
       && (forall i :: 0 <= i < |fs| ==> |fs[i].payload| <= MAX_INT64)
       && c'.output == c.output + EncodeAll(c.isServer, fs, KeysFrom(env, |c.sent|, |fs|))
  }

  // ---- reading ----

  function ReadFrame(c: Conn, env: Env): (Conn, FrameRead) {
    Outcome(c, DecodeFrame(c.isServer, c.readLimit, c.input), env)
  }

  /** What the connection does with what it decoded. */
  function Outcome(c: Conn, d: Decoded, env: Env): (Conn, FrameRead) {
    match d
    case Short => (c.(input := []), FrameErr(Ended))
    case Bad(reason, rest) =>
      var (c', e) := ProtocolError(c.(input := rest), reason, env);
      (c', FrameErr(e))
    case TooBig(rest) =>
      (WriteClose(c.(input := rest), CLOSE_TOO_BIG, Ascii("message too big"), env).0, FrameErr(MessageTooBig))
    case Got(f, rest) => (c.(input := rest), FrameOk(f))
  }

  /** `handleControl` with the default handlers: pings are answered, a close is echoed and reported. */
  function HandleControl(c: Conn, f: Frame, env: Env): (Conn, Option<Error>) {
    if f.opcode == OpPing then
      var (c', r) := WriteControl(c, OpPong, f.payload, env);
      (c', if r.Closed? then Some(ConnClosed) else None)
    else if f.opcode == OpClose then HandleClose(c, f.payload, env)
    else (c, None)
  }

  function HandleClose(c: Conn, payload: seq<byte>, env: Env): (Conn, Option<Error>) {
    if |payload| == 1 then
      var (c', e) := ProtocolError(c, "invalid close payload length", env);
      (c', Some(e))
    else if |payload| == 0 then
      (WriteClose(c, CLOSE_NORMAL, [], env).0, Some(CloseError(CLOSE_NO_STATUS, [])))
    else
      var code, text := GetBE(payload[..2]), payload[2..];
      if !ValidCloseCode(code) then
        (WriteClose(c, CLOSE_PROTOCOL_ERROR, Ascii("invalid close code"), env).0,
         Some(CloseError(CLOSE_PROTOCOL_ERROR, Ascii("invalid close code"))))
      else if !env.utf8(text) then
        (WriteClose(c, CLOSE_INVALID_PAYLOAD, Ascii("invalid utf-8"), env).0,
         Some(CloseError(CLOSE_INVALID_PAYLOAD, Ascii("invalid utf-8 in close reason"))))
      else (WriteClose(c, code, [], env).0, Some(CloseError(code, text)))
  }

  /** A complete message is delivered when it is not an ill-formed text. */
  function Deliver(c: Conn, op: byte, data: seq<byte>, reason: string, env: Env): (Conn, ReadResult) {
    if op == OpText && !env.utf8(data) then
      var (c', e) := ProtocolError(WriteClose(c, CLOSE_INVALID_PAYLOAD, Ascii("invalid utf-8"), env).0, reason, env);
      (c', ReadErr(e))
    else (c, Message(op, data))
  }

  /** A data frame: `None` when the message goes on. */
  function TakeData(c: Conn, f: Frame, env: Env): (Conn, Option<ReadResult>) {
    if f.opcode != OpContinuation then
      if c.fragOpcode != 0 then
        var (c', e) := ProtocolError(c, "expected continuation frame", env);
        (c', Some(ReadErr(e)))
      else if f.fin then
        var (c', r) := Deliver(c, f.opcode, f.payload, "invalid utf-8 in text frame", env);
        (c', Some(r))
      else (c.(fragOpcode := f.opcode, fragBuf := f.payload), None)
    else if c.fragOpcode == 0 then
      var (c', e) := ProtocolError(c, "unexpected continuation frame", env);
      (c', Some(ReadErr(e)))
    else if |c.fragBuf| + |f.payload| > c.readLimit then
      (WriteClose(c.(fragOpcode := 0, fragBuf := []), CLOSE_TOO_BIG, Ascii("message too big"), env).0,
       Some(ReadErr(MessageTooBig)))
    else if f.fin then
      var (c', r) := Deliver(c.(fragOpcode := 0, fragBuf := []), c.fragOpcode, c.fragBuf + f.payload,
                             "invalid utf-8 in text message", env);
      (c', Some(r))
    else (c.(fragBuf := c.fragBuf + f.payload), None)
  }

  /** One turn of the loop of `ReadMessage`: `None` means read on. */
  function ReadStep(c: Conn, env: Env): (r: (Conn, Option<ReadResult>))
    ensures r.1.None? ==> |r.0.input| < |c.input|
  {
    var (c1, fr) := ReadFrame(c, env);
    match fr
    case FrameErr(e) => (c1, Some(ReadErr(e)))
    case FrameOk(f) =>
      if IsControl(f.opcode) then
        var (c2, e) := HandleControl(c1, f, env);
        (c2, if e.Some? then Some(ReadErr(e.value)) else None)
      else TakeData(c1, f, env)
  }

  function ReadMessage(c: Conn, env: Env): (Conn, ReadResult)
    decreases |c.input|
  {
    var (c', r) := ReadStep(c, env);
    if r.Some? then (c', r.value) else ReadMessage(c', env)
  }
}
