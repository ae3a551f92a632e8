/** Fragment reassembly (section 5.4 of RFC 6455): every split of a message, with pings and pongs anywhere between the
    fragments, is read as the message. `WsMessages` has the converse. */
module WsReassembly {
  import opened Text
  import opened Bytes
  import opened WsFrames
  import opened WsSession
  import opened WsItems

  /** Reading the items yields the message, answers every ping, consumes exactly the items' bytes and leaves the reader
      ready for the next message. */
  lemma {:induction false} Reassembles(c: Conn, items: seq<Item>, op: byte, started: bool, keys: seq<MaskKey>,
                                       rest: seq<byte>, env: Env)
    requires Items(items, c.readLimit) && |items| <= |keys| && Waiting(c, op, started)
    requires |c.fragBuf| + |Payload(items)| <= c.readLimit
    requires op == OpText ==> env.utf8(c.fragBuf + Payload(items))
    ensures Delivered(c, ReadMessage(Ahead(c, items, op, started, keys, rest), env), op, c.fragBuf + Payload(items),
                      Pongs(items), rest)
    decreases |items|, 1
  {
    if items[0].Control? {
      ControlFirst(c, items, op, started, keys, rest, env);
    } else if |items| == 1 {
      LastFragment(c, items, op, started, keys, rest, env);
    } else {
      FragmentFirst(c, items, op, started, keys, rest, env);
    }
  }

  lemma {:induction false} ControlFirst(c: Conn, items: seq<Item>, op: byte, started: bool, keys: seq<MaskKey>,
                                       rest: seq<byte>, env: Env)
    requires Items(items, c.readLimit) && |items| <= |keys| && Waiting(c, op, started)
    requires |c.fragBuf| + |Payload(items)| <= c.readLimit
    requires op == OpText ==> env.utf8(c.fragBuf + Payload(items))
    requires items[0].Control?
    ensures Delivered(c, ReadMessage(Ahead(c, items, op, started, keys, rest), env), op, c.fragBuf + Payload(items),
                      Pongs(items), rest)
    decreases |items|, 0
  {
    var i, tail := items[0], items[1..];
    hide EncodeFrame, ReadStep, ReadMessage, Wire, Items, Payload, Pongs, Answer, ItemOk, Delivered;
    ItemsHead(c, items, op, started, keys, rest);
    var c0 := Ahead(c, items, op, started, keys, rest);
    var more := Wire(!c.isServer, tail, op, started, keys[1..]) + rest;
    assert [] + Payload(tail) == Payload(tail);
    LoopTurn(c0, env);
    ControlStep(c0, i, keys[0], more, env);
    var c1 := ReadStep(c0, env).0;
    Reassembles(c1, tail, op, started, keys[1..], rest, env);
    DeliveredOn(c, c1, ReadMessage(c1, env), op, c.fragBuf + Payload(items), Answer(i), Pongs(tail), rest);
  }

  lemma LastFragment(c: Conn, items: seq<Item>, op: byte, started: bool, keys: seq<MaskKey>,
                                       rest: seq<byte>, env: Env)
    requires Items(items, c.readLimit) && |items| <= |keys| && Waiting(c, op, started)
    requires |c.fragBuf| + |Payload(items)| <= c.readLimit
    requires op == OpText ==> env.utf8(c.fragBuf + Payload(items))
    requires items[0].Fragment? && |items| == 1
    ensures Delivered(c, ReadMessage(Ahead(c, items, op, started, keys, rest), env), op, c.fragBuf + Payload(items),
                      Pongs(items), rest)
  {
    var i, tail := items[0], items[1..];
    hide EncodeFrame, ReadStep, ReadMessage, Wire, Items, Payload, Pongs, Answer, ItemOk, Delivered;
    ItemsHead(c, items, op, started, keys, rest);
    var c0 := Ahead(c, items, op, started, keys, rest);
    var more := Wire(!c.isServer, tail, op, true, keys[1..]) + rest;
    assert i.data + [] == i.data && more == rest;
    LoopTurn(c0, env);
    LastStep(c0, i.data, op, started, keys[0], more, env);
    LastDelivered(c0, ReadMessage(c0, env), op, c.fragBuf + Payload(items), rest);
  }

  lemma {:induction false} FragmentFirst(c: Conn, items: seq<Item>, op: byte, started: bool, keys: seq<MaskKey>,
                                       rest: seq<byte>, env: Env)
    requires Items(items, c.readLimit) && |items| <= |keys| && Waiting(c, op, started)
    requires |c.fragBuf| + |Payload(items)| <= c.readLimit
    requires op == OpText ==> env.utf8(c.fragBuf + Payload(items))
    requires items[0].Fragment? && |items| > 1
    ensures Delivered(c, ReadMessage(Ahead(c, items, op, started, keys, rest), env), op, c.fragBuf + Payload(items),
                      Pongs(items), rest)
    decreases |items|, 0
  {
    var i, tail := items[0], items[1..];
    hide EncodeFrame, ReadStep, ReadMessage, Wire, Items, Payload, Pongs, Answer, ItemOk, Delivered;
    ItemsHead(c, items, op, started, keys, rest);
    var c0 := Ahead(c, items, op, started, keys, rest);
    var more := Wire(!c.isServer, tail, op, true, keys[1..]) + rest;
    LoopTurn(c0, env);
    Joined(c.fragBuf, i.data, Payload(tail));
    assert c.sent + [] == c.sent && [] + Pongs(tail) == Pongs(tail);
    FragmentStep(c0, i.data, op, started, keys[0], more, env);
    var c1 := ReadStep(c0, env).0;
    Reassembles(c1, tail, op, true, keys[1..], rest, env);
    DeliveredOn(c, c1, ReadMessage(c1, env), op, c.fragBuf + Payload(items), [], Pongs(tail), rest);
  }
}
