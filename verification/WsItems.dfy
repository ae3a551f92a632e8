/** What a peer sends while it sends one message, and what each turn of the reading loop does with it. */
module WsItems {
  import opened Text
  import opened Bytes
  import opened WsFrames
  import opened WsSession

  /** What a peer sends while it sends one message: fragments, and control frames in between. */
  datatype Item = Fragment(data: seq<byte>) | Control(op: byte, payload: seq<byte>)

  predicate ItemOk(i: Item) {
    match i
    case Fragment(data) => |data| <= MAX_INT64
    case Control(op, payload) => (op == OpPing || op == OpPong) && |payload| <= MAX_CONTROL_PAYLOAD
  }

  /** The last item is the last fragment, and the control frames keep the read limit, too. */
  predicate Items(items: seq<Item>, limit: nat) {
    && items != [] && items[|items| - 1].Fragment?
    && forall i :: 0 <= i < |items| ==> ItemOk(items[i]) && (items[i].Control? ==> |items[i].payload| <= limit)
  }

  /** The first fragment carries the opcode, the others are continuations; the last one is final. */
  function FrameOf(i: Item, op: byte, started: bool, last: bool): (f: Frame)
    ensures ItemOk(i) ==> |f.payload| <= MAX_INT64
  {
    match i
    case Fragment(data) => Frame(last, if started then OpContinuation else op, data)
    case Control(o, payload) => Frame(true, o, payload)
  }

  function Wire(isServer: bool, items: seq<Item>, op: byte, started: bool, keys: seq<MaskKey>): seq<byte>
    requires |items| <= |keys| && forall i :: 0 <= i < |items| ==> ItemOk(items[i])
  {
    if items == [] then []
    else EncodeFrame(isServer, FrameOf(items[0], op, started, |items| == 1), keys[0]) +
         Wire(isServer, items[1..], op, started || items[0].Fragment?, keys[1..])
  }

  /** The message: all fragments joined. */
  function Payload(items: seq<Item>): seq<byte> {
    if items == [] then []
    else (if items[0].Fragment? then items[0].data else []) + Payload(items[1..])
  }

  /** A ping is answered with a pong of the same payload. */
  function Answer(i: Item): (fs: seq<Frame>)
    ensures i.Control? && i.op == OpPing ==> |fs| == 1 && |fs[0].payload| == |i.payload|
  {
    if i.Control? && i.op == OpPing then [Frame(true, OpPong, i.payload)] else []
  }

  /** All answers, in order. */
  function Pongs(items: seq<Item>): seq<Frame> {
    if items == [] then [] else Answer(items[0]) + Pongs(items[1..])
  }

  /** The reader is waiting for the message: at its start, or after fragments already buffered. */
  predicate Waiting(c: Conn, op: byte, started: bool) {
    !c.closed && (op == OpText || op == OpBinary) &&
    (if started then c.fragOpcode == op else c.fragOpcode == 0 && c.fragBuf == [])
  }

  /** The message was returned, the pongs were sent, exactly the bytes before `rest` were consumed, and the reader is
      ready for the next message. */
  ghost predicate Delivered(c: Conn, r: (Conn, ReadResult), op: byte, data: seq<byte>, pongs: seq<Frame>,
                            rest: seq<byte>) {
    && r.1 == Message(op, data)
    && r.0.input == rest && r.0.fragOpcode == 0 && r.0.fragBuf == []
    && r.0.sent == c.sent + pongs && r.0.closeSent == c.closeSent && r.0.closed == c.closed
  }

  /** The next frame on the stream is read whole. */
  lemma FrameAhead(c: Conn, f: Frame, key: MaskKey, more: seq<byte>, env: Env)
    requires Acceptable(f, c.readLimit) && |f.payload| <= MAX_INT64
    requires c.input == EncodeFrame(!c.isServer, f, key) + more
    ensures ReadFrame(c, env) == (c.(input := more), FrameOk(f))
  {
    hide DecodeFrame, EncodeFrame, Acceptable;
    FrameRoundTrip(!c.isServer, f, key, c.readLimit, more);
  }

  lemma ControlBits()
    ensures IsControl(OpPing) && IsControl(OpPong) && IsControl(OpClose)
    ensures !IsControl(OpText) && !IsControl(OpBinary) && !IsControl(OpContinuation)
  {
  }

  /** A ping is answered and a pong ignored; the message goes on. */
  lemma ControlStep(c: Conn, i: Item, key: MaskKey, more: seq<byte>, env: Env)
    requires i.Control? && ItemOk(i) && !c.closed && |i.payload| <= c.readLimit
    requires c.input == EncodeFrame(!c.isServer, Frame(true, i.op, i.payload), key) + more
    ensures var (c1, r) := ReadStep(c, env);
            && r.None? && c1 == c.(input := more, output := c1.output, sent := c.sent + Answer(i))
            && (i.op == OpPing ==> c1.output == c.output + EncodeFrame(c.isServer, Answer(i)[0], env.keys(|c.sent|)))
            && (i.op != OpPing ==> c1.output == c.output)
  {
    hide EncodeFrame, DecodeFrame, IsControl, ReadFrame;
    ControlBits();
    FrameAhead(c, Frame(true, i.op, i.payload), key, more, env);
  }

  /** A fragment that is not the last is buffered. */
  lemma FragmentStep(c: Conn, data: seq<byte>, op: byte, started: bool, key: MaskKey, more: seq<byte>, env: Env)
    requires Waiting(c, op, started) && |data| <= MAX_INT64 && |c.fragBuf| + |data| <= c.readLimit
    requires c.input == EncodeFrame(!c.isServer, Frame(false, if started then OpContinuation else op, data), key) + more
    ensures ReadStep(c, env) == (c.(input := more, fragOpcode := op, fragBuf := c.fragBuf + data), None)
  {
    hide EncodeFrame, DecodeFrame, IsControl, ReadFrame;
    ControlBits();
    FrameAhead(c, Frame(false, if started then OpContinuation else op, data), key, more, env);
    assert [] + data == data;
  }

  /** The last fragment delivers the message. */
  lemma LastStep(c: Conn, data: seq<byte>, op: byte, started: bool, key: MaskKey, more: seq<byte>, env: Env)
    requires Waiting(c, op, started) && |data| <= MAX_INT64 && |c.fragBuf| + |data| <= c.readLimit
    requires op == OpText ==> env.utf8(c.fragBuf + data)
    requires c.input == EncodeFrame(!c.isServer, Frame(true, if started then OpContinuation else op, data), key) + more
    ensures ReadStep(c, env) == (c.(input := more, fragOpcode := 0, fragBuf := []), Some(Message(op, c.fragBuf + data)))
  {
    hide EncodeFrame, DecodeFrame, IsControl, ReadFrame;
    ControlBits();
    FrameAhead(c, Frame(true, if started then OpContinuation else op, data), key, more, env);
    assert [] + data == data;
  }

  /** The reader with the items, and then `rest`, on the stream. */
  function Ahead(c: Conn, items: seq<Item>, op: byte, started: bool, keys: seq<MaskKey>, rest: seq<byte>): Conn
    requires |items| <= |keys| && forall i :: 0 <= i < |items| ==> ItemOk(items[i])
  {
    c.(input := Wire(!c.isServer, items, op, started, keys) + rest)
  }

  lemma LastDelivered(c: Conn, r: (Conn, ReadResult), op: byte, data: seq<byte>, rest: seq<byte>)
    requires r == (c.(input := rest, fragOpcode := 0, fragBuf := []), Message(op, data))
    ensures Delivered(c, r, op, data, [], rest)
  {
  }

  lemma DeliveredOn(c: Conn, c1: Conn, r: (Conn, ReadResult), op: byte, data: seq<byte>, pong: seq<Frame>,
                    pongs: seq<Frame>, rest: seq<byte>)
    requires Delivered(c1, r, op, data, pongs, rest)
    requires c1.sent == c.sent + pong && c1.closeSent == c.closeSent && c1.closed == c.closed
    ensures Delivered(c, r, op, data, pong + pongs, rest)
  {
  }

  lemma LoopTurn(c: Conn, env: Env)
    ensures ReadMessage(c, env) ==
            var (c', r) := ReadStep(c, env); if r.Some? then (c', r.value) else ReadMessage(c', env)
  {
  }

  /** The stream, the payload and the pongs of a list of items in terms of its first item. */
  lemma ItemsHead(c: Conn, items: seq<Item>, op: byte, started: bool, keys: seq<MaskKey>, rest: seq<byte>)
    requires Items(items, c.readLimit) && |items| <= |keys|
    ensures var (i, tail) := (items[0], items[1..]);
            && ItemOk(i) && (i.Control? || |items| > 1 ==> Items(tail, c.readLimit))
            && (i.Control? ==> |i.payload| <= c.readLimit)
            && (forall k :: 0 <= k < |tail| ==> ItemOk(tail[k]))
            && Ahead(c, items, op, started, keys, rest) ==
               c.(input := EncodeFrame(!c.isServer, FrameOf(i, op, started, |items| == 1), keys[0]) +
                           (Wire(!c.isServer, tail, op, started || i.Fragment?, keys[1..]) + rest))
            && Payload(items) == (if i.Fragment? then i.data else []) + Payload(tail)
            && Pongs(items) == Answer(i) + Pongs(tail) && (i.Fragment? ==> Answer(i) == [])
            && (|items| == 1 ==>
                  && Payload(tail) == [] && Pongs(tail) == [] && i.Fragment?
                  && Wire(!c.isServer, tail, op, started || i.Fragment?, keys[1..]) == [])
  {
    TailItems(items, c.readLimit);
    hide EncodeFrame, Items, ItemOk, Answer, FrameOf;
    WireHead(!c.isServer, items, op, started, keys, rest);
  }

  lemma TailItems(items: seq<Item>, limit: nat)
    requires Items(items, limit)
    ensures ItemOk(items[0]) && (items[0].Control? || |items| > 1 ==> Items(items[1..], limit))
    ensures items[0].Control? ==> |items[0].payload| <= limit
    ensures forall k :: 0 <= k < |items[1..]| ==> ItemOk(items[1..][k])
    ensures items[0].Fragment? ==> Answer(items[0]) == []
    ensures |items| == 1 ==> items[0].Fragment?
    ensures items != [] && forall i :: 0 <= i < |items| ==> ItemOk(items[i])
  {
    hide ItemOk;
  }

  lemma WireHead(isServer: bool, items: seq<Item>, op: byte, started: bool, keys: seq<MaskKey>, rest: seq<byte>)
    requires 0 < |items| <= |keys| && forall i :: 0 <= i < |items| ==> ItemOk(items[i])
    ensures forall k :: 0 <= k < |items[1..]| ==> ItemOk(items[1..][k])
    ensures var tail := Wire(isServer, items[1..], op, started || items[0].Fragment?, keys[1..]);
            && Wire(isServer, items, op, started, keys) + rest ==
               EncodeFrame(isServer, FrameOf(items[0], op, started, |items| == 1), keys[0]) + (tail + rest)
            && (|items| == 1 ==> tail == [])
  {
    hide EncodeFrame, ItemOk, FrameOf;
  }
}
