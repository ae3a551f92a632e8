/** The close handshake while messages, pings and pongs are still on their way in both directions (sections 5.5.1 and
    7.1 of RFC 6455). */
module WsHandshake {
  import opened Text
  import opened Bytes
  import opened WsFrames
  import opened WsSession
  import opened WsItems
  import opened WsReassembly
  import opened WsMessages
  import opened WsClosing

  // ---- reading until the connection fails ----

  datatype Drained = Drained(conn: Conn, messages: seq<ReadResult>, error: Error)

  /** `ReadMessage` called again and again until it reports an error. */
  function Drain(c: Conn, env: Env): Drained
    decreases |c.input|
  {
    MessageConsumes(c, env);
    var (c', r) := ReadMessage(c, env);
    match r
    case ReadErr(e) => Drained(c', [], e)
    case Message(_, _) =>
      var d := Drain(c', env);
      d.(messages := [r] + d.messages)
  }

  lemma TakeDataKeepsInput(c: Conn, f: Frame, env: Env)
    ensures TakeData(c, f, env).0.input == c.input
  {
    hide WriteClose, Ascii, Deliver;
    var c0 := c.(fragOpcode := 0, fragBuf := []);
    WritesKeepReader(c, OpPong, Ascii("expected continuation frame"), CLOSE_PROTOCOL_ERROR, env);
    WritesKeepReader(c, OpPong, Ascii("unexpected continuation frame"), CLOSE_PROTOCOL_ERROR, env);
    WritesKeepReader(c0, OpPong, Ascii("message too big"), CLOSE_TOO_BIG, env);
    DeliverKeeps(c, f.opcode, f.payload, "invalid utf-8 in text frame", env);
    DeliverKeeps(c0, c.fragOpcode, c.fragBuf + f.payload, "invalid utf-8 in text message", env);
  }

  /** A message read has consumed bytes. */
  lemma {:induction false} MessageConsumes(c: Conn, env: Env)
    ensures ReadMessage(c, env).1.Message? ==> |ReadMessage(c, env).0.input| < |c.input|
    decreases |c.input|
  {
    hide ReadStep, TakeData, DecodeFrame, HandleControl, IsControl;
    var (c', r) := ReadStep(c, env);
    if r.None? {
      MessageConsumes(c', env);
    } else if r.value.Message? {
      StepFrame(c, env);
      var d := DecodeFrame(c.isServer, c.readLimit, c.input);
      TakeDataKeepsInput(c.(input := d.rest), d.frame, env);
    }
  }

  lemma {:induction false} DrainGrew(c: Conn, env: Env)
    ensures Grew(c, Drain(c, env).conn, env)
    decreases |c.input|
  {
    hide ReadMessage, Grew;
    MessageConsumes(c, env);
    ReadMessageGrew(c, env);
    var (c', r) := ReadMessage(c, env);
    if r.Message? {
      DrainGrew(c', env);
      GrewTransitive(c, c', Drain(c', env).conn, env);
    }
  }

  // ---- what is in flight ----

  /** A whole message on its way, with the control frames between its fragments. */
  datatype Whole = Whole(op: byte, items: seq<Item>, keys: seq<MaskKey>)

  /** Whole messages, and control frames behind the last of them. */
  datatype Flight = Flight(messages: seq<Whole>, controls: seq<Frame>, keys: seq<MaskKey>)

  predicate WholeOk(m: Whole, limit: nat, env: Env) {
    && Items(m.items, limit) && |m.items| <= |m.keys| && (m.op == OpText || m.op == OpBinary)
    && |Payload(m.items)| <= limit && (m.op == OpText ==> env.utf8(Payload(m.items)))
  }

  predicate PingOrPong(f: Frame, limit: nat) {
    f.fin && (f.opcode == OpPing || f.opcode == OpPong) && |f.payload| <= MAX_CONTROL_PAYLOAD && |f.payload| <= limit
  }

  predicate Controls(fs: seq<Frame>, limit: nat) {
    forall i {:trigger fs[i]} :: 0 <= i < |fs| ==> PingOrPong(fs[i], limit)
  }

  predicate AllWhole(ms: seq<Whole>, limit: nat, env: Env) {
    forall i {:trigger ms[i]} :: 0 <= i < |ms| ==> WholeOk(ms[i], limit, env)
  }

  predicate FlightOk(fl: Flight, limit: nat, env: Env) {
    && AllWhole(fl.messages, limit, env) && |fl.controls| == |fl.keys| && Controls(fl.controls, limit)
  }

  function MessageBytes(isServer: bool, ms: seq<Whole>, limit: nat, env: Env): seq<byte>
    requires AllWhole(ms, limit, env)
  {
    if ms == [] then []
    else Wire(isServer, ms[0].items, ms[0].op, false, ms[0].keys) + MessageBytes(isServer, ms[1..], limit, env)
  }

  function FlightBytes(isServer: bool, fl: Flight, limit: nat, env: Env): seq<byte>
    requires FlightOk(fl, limit, env)
  {
    MessageBytes(isServer, fl.messages, limit, env) + EncodeAll(isServer, fl.controls, fl.keys)
  }

  /** The pongs a reader sends for control frames, and for whole messages. */
  function PongsTo(fs: seq<Frame>): (r: seq<Frame>)
    ensures forall i :: 0 <= i < |r| ==> r[i].opcode == OpPong && r[i].fin
  {
    if fs == [] then []
    else (if fs[0].opcode == OpPing then [Frame(true, OpPong, fs[0].payload)] else []) + PongsTo(fs[1..])
  }

  function PongsToMessages(ms: seq<Whole>): seq<Frame> {
    if ms == [] then [] else Pongs(ms[0].items) + PongsToMessages(ms[1..])
  }

  function Answers(fl: Flight): seq<Frame> { PongsToMessages(fl.messages) + PongsTo(fl.controls) }

  function Delivery(ms: seq<Whole>): seq<ReadResult> {
    if ms == [] then [] else [Message(ms[0].op, Payload(ms[0].items))] + Delivery(ms[1..])
  }

  // ---- control frames, then a close frame ----

  /** The reader after a valid close frame behind control frames: pings answered, the close echoed unless one was
      sent. */
  ghost predicate Closed(c: Conn, c': Conn, answers: seq<Frame>, code: nat, rest: seq<byte>) {
    && c'.input == rest && c'.closeSent && c'.closed == c.closed && c'.isServer == c.isServer
    && c'.sent == c.sent + answers + (if c.closeSent then [] else [CloseFrame(code, [])])
  }

  function CloseStream(isServer: bool, fs: seq<Frame>, code: nat, text: seq<byte>, keys: seq<MaskKey>): seq<byte>
    requires |fs| + 1 == |keys| && |text| <= 123
    requires forall i {:trigger fs[i]} :: 0 <= i < |fs| ==> |fs[i].payload| <= MAX_INT64
  {
    EncodeAll(isServer, fs + [CloseFrame(code, text)], keys)
  }

  /** Pings and pongs ahead of a close frame: the pings are answered, then the close is reported and echoed. */
  lemma {:induction false} ControlsThenClose(c: Conn, fs: seq<Frame>, code: nat, text: seq<byte>, keys: seq<MaskKey>,
                                             rest: seq<byte>, env: Env)
    requires |fs| + 1 == |keys| && Controls(fs, c.readLimit)
    requires !c.closed && 2 + |text| <= c.readLimit && ValidCloseCode(code) && |text| <= 123 && env.utf8(text)
    ensures var (c', r) := ReadMessage(c.(input := CloseStream(!c.isServer, fs, code, text, keys) + rest), env);
            r == ReadErr(CloseError(code, text)) && Closed(c, c', PongsTo(fs), code, rest)
    decreases |fs|
  {
    var c0 := c.(input := CloseStream(!c.isServer, fs, code, text, keys) + rest);
    CloseStreamHead(!c.isServer, fs, code, text, keys, rest);
    hide EncodeFrame, ReadMessage, ReadStep, CloseFrame, ValidCloseCode, CloseStream, Send;
    if fs == [] {
      ReadsClose(c0, !c.isServer, code, text, keys[0], rest, env);
      hide Closed;
      EchoedOnly(c, c0, ReadMessage(c0, env).0, code, rest, env);
    } else {
      var i, more := Control(fs[0].opcode, fs[0].payload),
          CloseStream(!c.isServer, fs[1..], code, text, keys[1..]) + rest;
      assert fs[0] == Frame(true, i.op, i.payload) && ItemOk(i);
      ControlStep(c0, i, keys[0], more, env);
      LoopTurn(c0, env);
      var c1 := ReadStep(c0, env).0;
      ControlsThenClose(c1, fs[1..], code, text, keys[1..], rest, env);
      assert c1 == c1.(input := more);
      hide Closed;
      AnsweredFirst(c, c1, ReadMessage(c1, env).0, fs, code, rest);
    }
  }

  lemma EchoedOnly(c: Conn, c0: Conn, c': Conn, code: nat, rest: seq<byte>, env: Env)
    requires c0.sent == c.sent && c0.closeSent == c.closeSent && c0.closed == c.closed && c0.isServer == c.isServer
    requires if c.closeSent then c' == c0.(input := rest)
             else c' == Send(c0.(input := rest, closeSent := true), CloseFrame(code, []), env)
    ensures Closed(c, c', PongsTo([]), code, rest)
  {
    hide EncodeFrame, CloseFrame;
    assert c.sent + [] == c.sent;
  }

  lemma AnsweredFirst(c: Conn, c1: Conn, c': Conn, fs: seq<Frame>, code: nat, rest: seq<byte>)
    requires fs != [] && c1.sent == c.sent + Answer(Control(fs[0].opcode, fs[0].payload))
    requires c1.closeSent == c.closeSent && c1.closed == c.closed && c1.isServer == c.isServer
    requires Closed(c1, c', PongsTo(fs[1..]), code, rest)
    ensures Closed(c, c', PongsTo(fs), code, rest)
  {
    var first := Answer(Control(fs[0].opcode, fs[0].payload));
    assert PongsTo(fs) == first + PongsTo(fs[1..]);
    hide CloseFrame, PongsTo, Answer;
    Joined(c.sent, first, PongsTo(fs[1..]));
  }

  lemma CloseStreamHead(isServer: bool, fs: seq<Frame>, code: nat, text: seq<byte>, keys: seq<MaskKey>, rest: seq<byte>)
    requires |fs| + 1 == |keys| && |text| <= 123
    requires forall i {:trigger fs[i]} :: 0 <= i < |fs| ==> |fs[i].payload| <= MAX_INT64
    ensures fs == [] ==>
              CloseStream(isServer, fs, code, text, keys) + rest ==
                EncodeFrame(isServer, CloseFrame(code, text), keys[0]) + rest
    ensures fs != [] ==>
              CloseStream(isServer, fs, code, text, keys) + rest ==
              EncodeFrame(isServer, fs[0], keys[0]) + (CloseStream(isServer, fs[1..], code, text, keys[1..]) + rest)
  {
    hide EncodeFrame, CloseFrame;
    var all := fs + [CloseFrame(code, text)];
    if fs != [] {
      assert all[1..] == fs[1..] + [CloseFrame(code, text)];
      Joined(EncodeFrame(isServer, fs[0], keys[0]), EncodeAll(isServer, all[1..], keys[1..]), rest);
    } else {
      CloseAlone(isServer, code, text, keys);
    }
  }

  // ---- everything in flight, then a close frame ----

  /** Whatever whole messages and control frames are ahead of a close frame, they are delivered and answered first. */
  lemma {:induction false} DrainsToClose(c: Conn, ms: seq<Whole>, fs: seq<Frame>, code: nat, text: seq<byte>,
                                         keys: seq<MaskKey>, rest: seq<byte>, env: Env)
    requires AllWhole(ms, c.readLimit, env)
    requires |fs| + 1 == |keys| && Controls(fs, c.readLimit)
    requires !c.closed && c.fragOpcode == 0 && c.fragBuf == []
    requires 2 + |text| <= c.readLimit && ValidCloseCode(code) && |text| <= 123 && env.utf8(text)
    ensures var stream := MessageBytes(!c.isServer, ms, c.readLimit, env) +
                          (CloseStream(!c.isServer, fs, code, text, keys) + rest);
            var d := Drain(c.(input := stream), env);
            && d.messages == Delivery(ms) && d.error == CloseError(code, text)
            && Closed(c, d.conn, PongsToMessages(ms) + PongsTo(fs), code, rest)
    decreases |ms|
  {
    var tail := CloseStream(!c.isServer, fs, code, text, keys) + rest;
    hide ReadMessage, CloseStream, CloseFrame, ValidCloseCode, PongsTo, Wire, Items, Payload, Pongs;
    if ms == [] {
      assert [] + tail == tail && [] + PongsTo(fs) == PongsTo(fs);
      ControlsThenClose(c, fs, code, text, keys, rest, env);
    } else {
      var m, more := ms[0], MessageBytes(!c.isServer, ms[1..], c.readLimit, env) + tail;
      var c0 := c.(input := MessageBytes(!c.isServer, ms, c.readLimit, env) + tail);
      FirstMessage(c, ms, tail, env);
      assert c0 == Ahead(c, m.items, m.op, false, m.keys, more);
      var (c1, r) := ReadMessage(c0, env);
      DrainsToClose(c1, ms[1..], fs, code, text, keys, rest, env);
      assert c1 == c1.(input := more);
      Joined(c.sent, Pongs(m.items), PongsToMessages(ms[1..]) + PongsTo(fs));
      Joined(Pongs(m.items), PongsToMessages(ms[1..]), PongsTo(fs));
    }
  }

  /** The first message is read as a whole. */
  lemma FirstMessage(c: Conn, ms: seq<Whole>, tail: seq<byte>, env: Env)
    requires ms != [] && AllWhole(ms, c.readLimit, env)
    requires !c.closed && c.fragOpcode == 0 && c.fragBuf == []
    ensures var m := ms[0];
            var more := MessageBytes(!c.isServer, ms[1..], c.readLimit, env) + tail;
            var c0 := c.(input := MessageBytes(!c.isServer, ms, c.readLimit, env) + tail);
            var (c1, r) := ReadMessage(c0, env);
            && c0 == Ahead(c, m.items, m.op, false, m.keys, more)
            && r == Message(m.op, Payload(m.items)) && c1.input == more && c1.fragOpcode == 0 && c1.fragBuf == []
            && c1.sent == c.sent + Pongs(m.items) && c1.closeSent == c.closeSent && c1.closed == c.closed
            && c1.isServer == c.isServer && c1.readLimit == c.readLimit
  {
    var m := ms[0];
    var more := MessageBytes(!c.isServer, ms[1..], c.readLimit, env) + tail;
    var c0 := c.(input := MessageBytes(!c.isServer, ms, c.readLimit, env) + tail);
    assert WholeOk(m, c.readLimit, env);
    Joined(Wire(!c.isServer, m.items, m.op, false, m.keys), MessageBytes(!c.isServer, ms[1..], c.readLimit, env), tail);
    hide ReadMessage, Wire, Payload, Pongs, MessageBytes;
    assert c0 == Ahead(c, m.items, m.op, false, m.keys, more);
    hide Ahead;
    assert c.fragBuf + Payload(m.items) == Payload(m.items);
    Reassembles(c, m.items, m.op, false, m.keys, more, env);
    ReadKeepsFrag(c0, env);
  }

  // ---- the handshake ----

  /** Open, between two messages. */
  predicate Ready(c: Conn) { !c.closed && !c.closeSent && c.fragOpcode == 0 && c.fragBuf == [] }

  /** The control frames behind the messages in flight, more control frames, and a close frame, as one stream. */
  lemma StreamJoined(isServer: bool, fl: Flight, more: seq<Frame>, code: nat, text: seq<byte>, keys: seq<MaskKey>,
                     limit: nat, env: Env)
    requires FlightOk(fl, limit, env) && |more| + 1 == |keys| && |text| <= 123
    requires forall i {:trigger more[i]} :: 0 <= i < |more| ==> |more[i].payload| <= MAX_INT64
    ensures FlightBytes(isServer, fl, limit, env) + EncodeAll(isServer, more + [CloseFrame(code, text)], keys) ==
            MessageBytes(isServer, fl.messages, limit, env) +
            CloseStream(isServer, fl.controls + more, code, text, fl.keys + keys)
  {
    hide EncodeFrame, EncodeAll, CloseFrame, MessageBytes;
    EncodeAllAppend(isServer, fl.controls, more + [CloseFrame(code, text)], fl.keys, keys);
    assert fl.controls + (more + [CloseFrame(code, text)]) == (fl.controls + more) + [CloseFrame(code, text)];
  }

  lemma {:induction false} PongsToPongs(a: seq<Frame>, b: seq<Frame>)
    requires forall i :: 0 <= i < |b| ==> b[i].opcode != OpPing
    ensures PongsTo(a + b) == PongsTo(a)
    decreases |a|, |b|
  {
    if a != [] {
      assert (a + b)[1..] == a[1..] + b;
      PongsToPongs(a[1..], b);
    } else if b != [] {
      assert (a + b)[1..] == [] + b[1..];
      PongsToPongs([], b[1..]);
    }
  }

  /** The bytes between two states are those of the frames between them. */
  lemma WireOf(c: Conn, c': Conn, fs: seq<Frame>, env: Env)
    requires Tracks(c, c', env) && c'.sent == c.sent + fs
    ensures forall i {:trigger fs[i]} :: 0 <= i < |fs| ==> |fs[i].payload| <= MAX_INT64
    ensures NewBytes(c, c') == EncodeAll(c.isServer, fs, KeysFrom(env, |c.sent|, |fs|))
  {
    hide EncodeAll;
    assert c'.sent[|c.sent|..] == fs;
  }

  /** One side closes while messages and control frames are in flight both ways: everything ahead of the close frames is
      delivered and answered, both readers end with the code, one close frame travels in each direction, and nothing is
      left. */
  lemma CloseHandshake(a: Conn, b: Conn, toA: Flight, toB: Flight, code: nat, text: seq<byte>, env: Env)
    requires Ready(a) && Ready(b) && a.isServer == !b.isServer
    requires ValidCloseCode(code) && |text| <= 123 && env.utf8(text) && env.utf8([])
    requires 2 + |text| <= b.readLimit && 2 <= a.readLimit
    requires FlightOk(toA, a.readLimit, env) && FlightOk(toB, b.readLimit, env)
    requires Controls(Answers(toB), a.readLimit)
    ensures var a1 := WriteClose(a, code, text, env).0;
            var b1 := Drain(b.(input := FlightBytes(a.isServer, toB, b.readLimit, env) + NewBytes(a, a1)), env);
            var a2 := Drain(a1.(input := FlightBytes(b.isServer, toA, a.readLimit, env) + NewBytes(b, b1.conn)), env);
            && b1.error == CloseError(code, text) && b1.messages == Delivery(toB.messages)
            && a2.error == CloseError(code, []) && a2.messages == Delivery(toA.messages)
            && b1.conn.sent == b.sent + Answers(toB) + [CloseFrame(code, [])]
            && a2.conn.sent == a.sent + [CloseFrame(code, text)] + Answers(toA)
            && b1.conn.input == [] && a2.conn.input == [] && b1.conn.closeSent && a2.conn.closeSent
  {
    hide EncodeFrame, EncodeAll, CloseFrame, ValidCloseCode, FlightBytes, MessageBytes, CloseStream, Drain, WriteClose;
    hide PongsTo, PongsToMessages, Delivery, PingOrPong, WholeOk, Tracks, NewBytes;
    // The reader of the close frame.
    var a1 := WriteClose(a, code, text, env).0;
    WriteCloseSends(a, code, text, env);
    var key := [env.keys(|a.sent|)];
    CloseAlone(a.isServer, code, text, key);
    StreamJoined(a.isServer, toB, [], code, text, key, b.readLimit, env);
    assert toB.controls + [] == toB.controls;
    DrainsTo(b, toB, [], code, text, key, [], env);
    NothingBehind(FlightBytes(a.isServer, toB, b.readLimit, env) + NewBytes(a, a1));
    var b1 := Drain(b.(input := FlightBytes(a.isServer, toB, b.readLimit, env) + NewBytes(a, a1)), env);
    // The reader of the echo.
    var echo := Answers(toB) + [CloseFrame(code, [])];
    AnswersSmall(Answers(toB), a.readLimit);
    DrainTracks(b, b.(input := FlightBytes(a.isServer, toB, b.readLimit, env) + NewBytes(a, a1)), env);
    assert b1.conn.sent == b.sent + echo by { Joined(b.sent, Answers(toB), [CloseFrame(code, [])]); }
    WireOf(b, b1.conn, echo, env);
    var keys := KeysFrom(env, |b.sent|, |echo|);
    StreamJoined(b.isServer, toA, Answers(toB), code, [], keys, a.readLimit, env);
    AnswersArePongs(toB);
    PongsToPongs(toA.controls, Answers(toB));
    DrainsTo(a1, toA, Answers(toB), code, [], keys, [], env);
    NothingBehind(FlightBytes(b.isServer, toA, a.readLimit, env) + NewBytes(b, b1.conn));
  }

  lemma AnswersSmall(fs: seq<Frame>, limit: nat)
    requires Controls(fs, limit)
    ensures forall i {:trigger fs[i]} :: 0 <= i < |fs| ==> |fs[i].payload| <= MAX_INT64
  {
  }

  lemma NothingBehind(bytes: seq<byte>)
    ensures bytes + [] == bytes
  {
  }

  lemma CloseAlone(isServer: bool, code: nat, text: seq<byte>, keys: seq<MaskKey>)
    requires |keys| == 1 && |text| <= 123
    ensures EncodeAll(isServer, [] + [CloseFrame(code, text)], keys) ==
            EncodeFrame(isServer, CloseFrame(code, text), keys[0])
  {
    hide EncodeFrame, CloseFrame;
    assert [] + [CloseFrame(code, text)] == [CloseFrame(code, text)];
  }

  lemma DrainTracks(c: Conn, c0: Conn, env: Env)
    requires c0.sent == c.sent && c0.output == c.output && c0.isServer == c.isServer
    ensures Tracks(c, Drain(c0, env).conn, env)
  {
    hide Drain, Tracks;
    DrainGrew(c0, env);
    TracksReader(c, c0, Drain(c0, env).conn, env);
  }

  lemma {:induction false} AnswersArePongs(fl: Flight)
    ensures forall i :: 0 <= i < |Answers(fl)| ==> Answers(fl)[i].opcode != OpPing
  {
    MessagePongs(fl.messages);
  }

  lemma {:induction false} MessagePongs(ms: seq<Whole>)
    ensures forall i :: 0 <= i < |PongsToMessages(ms)| ==> PongsToMessages(ms)[i].opcode != OpPing
  {
    if ms != [] {
      ItemPongs(ms[0].items);
      MessagePongs(ms[1..]);
    }
  }

  lemma {:induction false} ItemPongs(items: seq<Item>)
    ensures forall i :: 0 <= i < |Pongs(items)| ==> Pongs(items)[i].opcode != OpPing
  {
    if items != [] { ItemPongs(items[1..]); }
  }

  /** One reader of a flight, further control frames and a close frame. */
  lemma DrainsTo(c: Conn, fl: Flight, more: seq<Frame>, code: nat, text: seq<byte>, keys: seq<MaskKey>, rest: seq<byte>,
                 env: Env)
    requires FlightOk(fl, c.readLimit, env) && |more| + 1 == |keys|
    requires Controls(more, c.readLimit)
    requires !c.closed && c.fragOpcode == 0 && c.fragBuf == []
    requires 2 + |text| <= c.readLimit && ValidCloseCode(code) && |text| <= 123 && env.utf8(text)
    ensures forall i {:trigger more[i]} :: 0 <= i < |more| ==> |more[i].payload| <= MAX_INT64
    ensures var stream := FlightBytes(!c.isServer, fl, c.readLimit, env) +
                          EncodeAll(!c.isServer, more + [CloseFrame(code, text)], keys) + rest;
            var d := Drain(c.(input := stream), env);
            && d.messages == Delivery(fl.messages) && d.error == CloseError(code, text)
            && Closed(c, d.conn, PongsToMessages(fl.messages) + PongsTo(fl.controls + more), code, rest)
  {
    var fs := fl.controls + more;
    assert Controls(fs, c.readLimit);
    StreamJoined(!c.isServer, fl, more, code, text, keys, c.readLimit, env);
    hide EncodeFrame, EncodeAll, CloseFrame, ValidCloseCode, FlightBytes, MessageBytes, CloseStream, Drain;
    DrainsToClose(c, fl.messages, fs, code, text, fl.keys + keys, rest, env);
    Joined(MessageBytes(!c.isServer, fl.messages, c.readLimit, env),
           CloseStream(!c.isServer, fs, code, text, fl.keys + keys), rest);
  }

  /** Both sides close at once, with traffic in flight both ways and more behind the close frames: each delivers and
      answers what is ahead of the close frame, reports the other's code and reason, and sends no second close. */
  lemma SimultaneousClose(a: Conn, b: Conn, toA: Flight, toB: Flight, codeA: nat, textA: seq<byte>, codeB: nat,
                          textB: seq<byte>, restA: seq<byte>, restB: seq<byte>, env: Env)
    requires Ready(a) && Ready(b) && a.isServer == !b.isServer
    requires ValidCloseCode(codeA) && |textA| <= 123 && env.utf8(textA)
    requires ValidCloseCode(codeB) && |textB| <= 123 && env.utf8(textB)
    requires 2 + |textB| <= a.readLimit && 2 + |textA| <= b.readLimit
    requires FlightOk(toA, a.readLimit, env) && FlightOk(toB, b.readLimit, env)
    ensures var a1, b1 := WriteClose(a, codeA, textA, env).0, WriteClose(b, codeB, textB, env).0;
            var a2 := Drain(a1.(input := FlightBytes(b.isServer, toA, a.readLimit, env) + NewBytes(b, b1) + restA),
                            env);
            var b2 := Drain(b1.(input := FlightBytes(a.isServer, toB, b.readLimit, env) + NewBytes(a, a1) + restB),
                            env);
            && a2.error == CloseError(codeB, textB) && a2.messages == Delivery(toA.messages)
            && b2.error == CloseError(codeA, textA) && b2.messages == Delivery(toB.messages)
            && a2.conn.sent == a.sent + [CloseFrame(codeA, textA)] + Answers(toA) && a2.conn.input == restA
            && b2.conn.sent == b.sent + [CloseFrame(codeB, textB)] + Answers(toB) && b2.conn.input == restB
  {
    hide EncodeFrame, EncodeAll, CloseFrame, ValidCloseCode, FlightBytes, Drain, WriteClose, NewBytes;
    OneCloser(a, b, toB, codeA, textA, codeB, textB, restB, env);
    OneCloser(b, a, toA, codeB, textB, codeA, textA, restA, env);
  }

  /** The reader `b` of a close by `a`, when `b` has closed as well. */
  lemma OneCloser(a: Conn, b: Conn, toB: Flight, codeA: nat, textA: seq<byte>, codeB: nat, textB: seq<byte>,
                  rest: seq<byte>, env: Env)
    requires Ready(a) && Ready(b) && a.isServer == !b.isServer && FlightOk(toB, b.readLimit, env)
    requires ValidCloseCode(codeA) && |textA| <= 123 && env.utf8(textA) && 2 + |textA| <= b.readLimit && |textB| <= 123
    ensures var a1, b1 := WriteClose(a, codeA, textA, env).0, WriteClose(b, codeB, textB, env).0;
            var b2 := Drain(b1.(input := FlightBytes(a.isServer, toB, b.readLimit, env) + NewBytes(a, a1) + rest), env);
            && b2.error == CloseError(codeA, textA) && b2.messages == Delivery(toB.messages)
            && b2.conn.sent == b.sent + [CloseFrame(codeB, textB)] + Answers(toB) && b2.conn.input == rest
  {
    hide EncodeFrame, EncodeAll, CloseFrame, ValidCloseCode, FlightBytes, Drain, WriteClose, NewBytes;
    hide PongsTo, PongsToMessages, Delivery;
    WriteCloseSends(a, codeA, textA, env);
    WriteCloseSends(b, codeB, textB, env);
    var b1, key := WriteClose(b, codeB, textB, env).0, [env.keys(|a.sent|)];
    CloseAlone(a.isServer, codeA, textA, key);
    DrainsTo(b1, toB, [], codeA, textA, key, rest, env);
    assert toB.controls + [] == toB.controls;
  }
}
