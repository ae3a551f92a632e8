/** What one endpoint writes is what the other one reads, message by message (sections 5.4 and 5.6 of RFC 6455). */
module WsDelivery {
  import opened Text
  import opened Bytes
  import opened WsFrames
  import opened WsSession
  import opened WsItems
  import opened WsClosing
  import opened WsHandshake

  /** A call of `WriteMessage`. */
  datatype Post = Post(op: byte, data: seq<byte>)

  /** A text or binary message that a peer with this limit accepts. */
  predicate PostOk(p: Post, limit: nat, env: Env) {
    && (p.op == OpText || p.op == OpBinary) && |p.data| <= limit && |p.data| <= MAX_INT64
    && (p.op == OpText ==> env.utf8(p.data))
  }

  predicate AllPosts(ps: seq<Post>, limit: nat, env: Env) {
    forall i {:trigger ps[i]} :: 0 <= i < |ps| ==> PostOk(ps[i], limit, env)
  }

  function WriteAll(c: Conn, ps: seq<Post>, env: Env): Conn
    requires forall i {:trigger ps[i]} :: 0 <= i < |ps| ==> |ps[i].data| <= MAX_INT64
    decreases |ps|
  {
    if ps == [] then c else WriteAll(WriteMessage(c, ps[0].op, ps[0].data, env).0, ps[1..], env)
  }

  /** What the peer's reader returns. */
  function Received(ps: seq<Post>): (rs: seq<ReadResult>)
    ensures |rs| == |ps| && forall i :: 0 <= i < |ps| ==> rs[i] == Message(ps[i].op, ps[i].data)
  {
    if ps == [] then [] else [Message(ps[0].op, ps[0].data)] + Received(ps[1..])
  }

  lemma WriteSends(a: Conn, p: Post, limit: nat, env: Env)
    requires PostOk(p, limit, env) && !a.closed
    ensures var f := Frame(true, p.op, p.data);
            && WriteMessage(a, p.op, p.data, env) == (Send(a, f, env), Sent)
            && NewBytes(a, Send(a, f, env)) == EncodeFrame(a.isServer, f, env.keys(|a.sent|))
  {
    hide EncodeFrame;
    ControlBits();
    SendWire(a, a, Frame(true, p.op, p.data), env);
  }

  /** A message that is written is read by the peer as the same message, and nothing else is consumed. */
  lemma MessageDelivered(a: Conn, b: Conn, p: Post, rest: seq<byte>, env: Env)
    requires a.isServer == !b.isServer && !a.closed && PostOk(p, b.readLimit, env)
    requires b.fragOpcode == 0 && b.fragBuf == []
    ensures var (a1, r) := WriteMessage(a, p.op, p.data, env);
            && r == Sent
            && ReadMessage(b.(input := NewBytes(a, a1) + rest), env) == (b.(input := rest), Message(p.op, p.data))
  {
    var f, key := Frame(true, p.op, p.data), env.keys(|a.sent|);
    WriteSends(a, p, b.readLimit, env);
    var b0 := b.(input := EncodeFrame(a.isServer, f, key) + rest);
    ControlBits();
    hide EncodeFrame, DecodeFrame, IsControl, WriteMessage, Send, NewBytes;
    FrameAhead(b0, f, key, rest, env);
    hide ReadFrame;
    assert b0.(input := rest) == b.(input := rest);
    assert ReadStep(b0, env) == (b.(input := rest), Some(Message(p.op, p.data)));
  }

  lemma {:induction false} WriteAllGrows(c: Conn, ps: seq<Post>, env: Env)
    requires forall i {:trigger ps[i]} :: 0 <= i < |ps| ==> |ps[i].data| <= MAX_INT64
    ensures var c' := WriteAll(c, ps, env);
            && c.output <= c'.output && c.sent <= c'.sent && c'.isServer == c.isServer && c'.closed == c.closed
            && c'.closeSent == c.closeSent && c'.readLimit == c.readLimit && c'.input == c.input
            && c'.fragOpcode == c.fragOpcode && c'.fragBuf == c.fragBuf
    decreases |ps|
  {
    hide EncodeFrame;
    if ps != [] { WriteAllGrows(WriteMessage(c, ps[0].op, ps[0].data, env).0, ps[1..], env); }
  }

  lemma FirstWritten(a: Conn, ps: seq<Post>, env: Env)
    requires ps != [] && forall i {:trigger ps[i]} :: 0 <= i < |ps| ==> |ps[i].data| <= MAX_INT64
    ensures var a1 := WriteMessage(a, ps[0].op, ps[0].data, env).0;
            NewBytes(a, WriteAll(a, ps, env)) == NewBytes(a, a1) + NewBytes(a1, WriteAll(a1, ps[1..], env))
  {
    hide EncodeFrame;
    var a1 := WriteMessage(a, ps[0].op, ps[0].data, env).0;
    WriteAllGrows(a1, ps[1..], env);
    var a2 := WriteAll(a1, ps[1..], env);
    assert a.output <= a1.output <= a2.output;
    hide WriteMessage;
    assert a2.output[|a.output|..] == a1.output[|a.output|..] + a2.output[|a1.output|..];
  }

  /** All messages arrive, in order, and then the reader goes on with what follows. */
  lemma {:induction false} MessagesDelivered(a: Conn, b: Conn, ps: seq<Post>, rest: seq<byte>, env: Env)
    requires a.isServer == !b.isServer && !a.closed && AllPosts(ps, b.readLimit, env)
    requires b.fragOpcode == 0 && b.fragBuf == []
    ensures var d, after := Drain(b.(input := NewBytes(a, WriteAll(a, ps, env)) + rest), env),
                            Drain(b.(input := rest), env);
            d.messages == Received(ps) + after.messages && d.error == after.error && d.conn == after.conn
    decreases |ps|
  {
    hide ReadMessage, WriteMessage;
    if ps == [] {
      assert [] + rest == rest && NewBytes(a, a) == [];
    } else {
      var a1 := WriteMessage(a, ps[0].op, ps[0].data, env).0;
      WriteSends(a, ps[0], b.readLimit, env);
      FirstWritten(a, ps, env);
      var more := NewBytes(a1, WriteAll(a1, ps[1..], env)) + rest;
      hide NewBytes, EncodeFrame;
      Joined(NewBytes(a, a1), NewBytes(a1, WriteAll(a1, ps[1..], env)), rest);
      MessageDelivered(a, b, ps[0], more, env);
      MessagesDelivered(a1, b, ps[1..], rest, env);
      var after := Drain(b.(input := rest), env);
      Joined([Message(ps[0].op, ps[0].data)], Received(ps[1..]), after.messages);
    }
  }

  /** With nothing behind them, the reader delivers them all and then waits at the end of the stream. */
  lemma AllDelivered(a: Conn, b: Conn, ps: seq<Post>, env: Env)
    requires a.isServer == !b.isServer && !a.closed && AllPosts(ps, b.readLimit, env)
    requires b.fragOpcode == 0 && b.fragBuf == []
    ensures Drain(b.(input := NewBytes(a, WriteAll(a, ps, env))), env) == Drained(b.(input := []), Received(ps), Ended)
  {
    hide ReadMessage, WriteAll, NewBytes, Drain;
    MessagesDelivered(a, b, ps, [], env);
    assert NewBytes(a, WriteAll(a, ps, env)) + [] == NewBytes(a, WriteAll(a, ps, env));
    EmptyStream(b.(input := []), env);
    assert Received(ps) + [] == Received(ps);
  }

  lemma EmptyStream(c: Conn, env: Env)
    requires c.input == []
    ensures Drain(c, env) == Drained(c, [], Ended)
  {
    hide TakeData, HandleControl;
    assert DecodeFrame(c.isServer, c.readLimit, c.input).Short?;
    assert ReadStep(c, env) == (c, Some(ReadErr(Ended)));
  }

  // ---- written traffic as traffic in flight ----

  /** What was written, as whole messages of one fragment each; `at` numbers the frames. */
  function AsWholes(at: nat, ps: seq<Post>, env: Env): (ms: seq<Whole>)
    ensures |ms| == |ps|
    decreases |ps|
  {
    if ps == [] then []
    else [Whole(ps[0].op, [Fragment(ps[0].data)], [env.keys(at)])] + AsWholes(at + 1, ps[1..], env)
  }

  lemma {:induction false} WrittenInFlight(a: Conn, ps: seq<Post>, limit: nat, env: Env)
    requires !a.closed && AllPosts(ps, limit, env)
    ensures var ms := AsWholes(|a.sent|, ps, env);
            && AllWhole(ms, limit, env) && MessageBytes(a.isServer, ms, limit, env) == NewBytes(a, WriteAll(a, ps, env))
            && Delivery(ms) == Received(ps) && PongsToMessages(ms) == []
    decreases |ps|
  {
    hide EncodeFrame, WriteMessage, WholeOk, PostOk;
    if ps != [] {
      hide MessageBytes, Delivery, PongsToMessages, AllWhole, NewBytes;
      var p, key := ps[0], env.keys(|a.sent|);
      assert PostOk(p, limit, env) && AllPosts(ps[1..], limit, env);
      WriteSends(a, p, limit, env);
      assert forall i {:trigger ps[i]} :: 0 <= i < |ps| ==> |ps[i].data| <= MAX_INT64 by { PostsShort(ps, limit, env); }
      var a1 := WriteMessage(a, p.op, p.data, env).0;
      FirstWritten(a, ps, env);
      WrittenInFlight(a1, ps[1..], limit, env);
      FlightGrows(a.isServer, p, key, AsWholes(|a1.sent|, ps[1..], env), limit, env);
      assert |a1.sent| == |a.sent| + 1;
    }
  }

  lemma PostsShort(ps: seq<Post>, limit: nat, env: Env)
    requires AllPosts(ps, limit, env)
    ensures forall i {:trigger ps[i]} :: 0 <= i < |ps| ==> |ps[i].data| <= MAX_INT64
  {
  }

  /** One message in front of those in flight. */
  lemma FlightGrows(isServer: bool, p: Post, key: MaskKey, ms: seq<Whole>, limit: nat, env: Env)
    requires PostOk(p, limit, env) && AllWhole(ms, limit, env)
    ensures var all := [Whole(p.op, [Fragment(p.data)], [key])] + ms;
            && AllWhole(all, limit, env)
            && MessageBytes(isServer, all, limit, env) ==
               EncodeFrame(isServer, Frame(true, p.op, p.data), key) + MessageBytes(isServer, ms, limit, env)
            && Delivery(all) == [Message(p.op, p.data)] + Delivery(ms) && PongsToMessages(all) == PongsToMessages(ms)
  {
    OneFragment(p, key, isServer, limit, env);
    var all := [Whole(p.op, [Fragment(p.data)], [key])] + ms;
    hide EncodeFrame, WholeOk, Wire, Payload, Pongs, PostOk;
    assert all[1..] == ms;
    WholesOk(all, limit, env);
  }

  lemma OneFragment(p: Post, key: MaskKey, isServer: bool, limit: nat, env: Env)
    requires PostOk(p, limit, env)
    ensures var items := [Fragment(p.data)];
            && WholeOk(Whole(p.op, items, [key]), limit, env) && Payload(items) == p.data && Pongs(items) == []
            && Wire(isServer, items, p.op, false, [key]) == EncodeFrame(isServer, Frame(true, p.op, p.data), key)
  {
    hide EncodeFrame;
    var items := [Fragment(p.data)];
    assert items[1..] == [] && p.data + [] == p.data;
    assert items[0].Fragment? && ItemOk(items[0]) && Items(items, limit);
    assert Payload(items) == p.data;
  }

  lemma WholesOk(ms: seq<Whole>, limit: nat, env: Env)
    requires ms != [] && WholeOk(ms[0], limit, env) && AllWhole(ms[1..], limit, env)
    ensures AllWhole(ms, limit, env)
  {
    hide WholeOk;
    assert forall i {:trigger ms[i]} :: 0 < i < |ms| ==> ms[i] == ms[1..][i - 1];
  }

  /** Both sides write any messages, one of them closes: all messages of both arrive, both readers end with the code,
      and nothing is left on the wire. */
  lemma WritesThenHandshake(a: Conn, b: Conn, fromA: seq<Post>, fromB: seq<Post>, code: nat, text: seq<byte>, env: Env)
    requires Ready(a) && Ready(b) && a.isServer == !b.isServer
    requires ValidCloseCode(code) && |text| <= 123 && env.utf8(text) && env.utf8([])
    requires 2 + |text| <= b.readLimit && 2 <= a.readLimit
    requires AllPosts(fromA, b.readLimit, env) && AllPosts(fromB, a.readLimit, env)
    ensures var a1, b1 := WriteAll(a, fromA, env), WriteAll(b, fromB, env);
            var a2 := WriteClose(a1, code, text, env).0;
            var b2 := Drain(b1.(input := NewBytes(a, a1) + NewBytes(a1, a2)), env);
            var a3 := Drain(a2.(input := NewBytes(b, b1) + NewBytes(b1, b2.conn)), env);
            && b2.messages == Received(fromA) && b2.error == CloseError(code, text) && b2.conn.input == []
            && a3.messages == Received(fromB) && a3.error == CloseError(code, []) && a3.conn.input == []
  {
    var a1, b1 := WriteAll(a, fromA, env), WriteAll(b, fromB, env);
    WriteAllGrows(a, fromA, env);
    WriteAllGrows(b, fromB, env);
    WrittenInFlight(a, fromA, b.readLimit, env);
    WrittenInFlight(b, fromB, a.readLimit, env);
    var toB, toA := Flight(AsWholes(|a.sent|, fromA, env), [], []), Flight(AsWholes(|b.sent|, fromB, env), [], []);
    NoControls(a.isServer, toB, b.readLimit, env);
    NoControls(b.isServer, toA, a.readLimit, env);
    hide *;
    hide Ready;
    CloseHandshake(a1, b1, toA, toB, code, text, env);
  }

  lemma NoControls(isServer: bool, fl: Flight, limit: nat, env: Env)
    requires AllWhole(fl.messages, limit, env) && fl.controls == [] && fl.keys == []
             && PongsToMessages(fl.messages) == []
    ensures FlightOk(fl, limit, env) && Answers(fl) == [] && Controls(Answers(fl), limit)
    ensures FlightBytes(isServer, fl, limit, env) == MessageBytes(isServer, fl.messages, limit, env)
  {
    assert PongsTo(fl.controls) == [] && EncodeAll(isServer, fl.controls, fl.keys) == [];
    assert MessageBytes(isServer, fl.messages, limit, env) + [] == MessageBytes(isServer, fl.messages, limit, env);
  }
}
