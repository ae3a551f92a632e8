/** What a delivered message consists of, and what every read keeps. */
module WsMessages {
  import opened Text
  import opened Bytes
  import opened WsFrames
  import opened WsSession

  /** The reassembly state between reads. */
  predicate FragOk(c: Conn) {
    && (c.fragOpcode == 0 || c.fragOpcode == OpText || c.fragOpcode == OpBinary)
    && (c.fragOpcode == 0 ==> c.fragBuf == [])
    && |c.fragBuf| <= c.readLimit
  }

  /** Closing and error reporting touch neither the unread input nor the reassembly state. */
  predicate SameReader(c: Conn, c': Conn) {
    && c'.isServer == c.isServer && c'.readLimit == c.readLimit && c'.input == c.input
    && c'.fragOpcode == c.fragOpcode && c'.fragBuf == c.fragBuf && c'.closed == c.closed
  }

  lemma WritesKeepReader(c: Conn, op: byte, data: seq<byte>, code: int, env: Env)
    ensures SameReader(c, WriteControl(c, op, data, env).0) && SameReader(c, WriteClose(c, code, data, env).0)
  {
    hide EncodeFrame;
  }

  lemma ControlKeepsReader(c: Conn, f: Frame, env: Env)
    ensures SameReader(c, HandleControl(c, f, env).0)
  {
    hide WriteControl, WriteClose;
    WritesKeepReader(c, OpPong, f.payload, 0, env);
    CloseKeepsReader(c, f.payload, env);
  }

  lemma CloseKeepsReader(c: Conn, payload: seq<byte>, env: Env)
    ensures SameReader(c, HandleClose(c, payload, env).0)
  {
    hide WriteControl, WriteClose;
    forall code: nat, text ensures SameReader(c, WriteClose(c, code, text, env).0) {
      WritesKeepReader(c, OpPong, text, code, env);
    }
  }

  lemma DataOpcodes(op: byte)
    requires LegalOpcode(op)
    ensures IsControl(op) <==> !(op == OpContinuation || op == OpText || op == OpBinary)
  {
  }

  lemma DeliverKeeps(c: Conn, op: byte, data: seq<byte>, reason: string, env: Env)
    ensures SameReader(c, Deliver(c, op, data, reason, env).0)
    ensures var r := Deliver(c, op, data, reason, env).1;
            && (r.Message? ==> r == Message(op, data)) && (r.Message? <==> (op == OpText ==> env.utf8(data)))
  {
    hide WriteClose;
    WritesKeepReader(c, op, Ascii("invalid utf-8"), CLOSE_INVALID_PAYLOAD, env);
    WritesKeepReader(WriteClose(c, CLOSE_INVALID_PAYLOAD, Ascii("invalid utf-8"), env).0, op, Ascii(reason),
                     CLOSE_PROTOCOL_ERROR, env);
  }

  /** The cases of a data frame: out of order, over the limit, going on, or complete. */
  lemma TakeDataCases(c: Conn, f: Frame, env: Env)
    requires FragOk(c) && |f.payload| <= c.readLimit
    requires f.opcode == OpContinuation || f.opcode == OpText || f.opcode == OpBinary
    ensures var (c', r) := TakeData(c, f, env);
            var inOrder := f.opcode == OpContinuation <==> c.fragOpcode != 0;
            && FragOk(c') && c'.isServer == c.isServer && c'.readLimit == c.readLimit && c'.input == c.input
            && (!inOrder ==> r.Some? && r.value.ReadErr? && r.value.error.CloseError?)
            && (inOrder && |c.fragBuf| + |f.payload| > c.readLimit ==> r == Some(ReadErr(MessageTooBig)))
            && (inOrder && |c.fragBuf| + |f.payload| <= c.readLimit ==>
                  var op := if c.fragOpcode != 0 then c.fragOpcode else f.opcode;
                  if !f.fin then r.None? && c'.fragOpcode == op && c'.fragBuf == c.fragBuf + f.payload
                  else
                    && r.Some? && (r.value.Message? ==> r.value == Message(op, c.fragBuf + f.payload))
                    && (r.value.Message? <==> (op == OpText ==> env.utf8(c.fragBuf + f.payload))))
  {
    hide WriteClose, Ascii, Deliver;
    var c0 := c.(fragOpcode := 0, fragBuf := []);
    WritesKeepReader(c, OpPong, Ascii("expected continuation frame"), CLOSE_PROTOCOL_ERROR, env);
    WritesKeepReader(c, OpPong, Ascii("unexpected continuation frame"), CLOSE_PROTOCOL_ERROR, env);
    WritesKeepReader(c0, OpPong, Ascii("message too big"), CLOSE_TOO_BIG, env);
    DeliverKeeps(c, f.opcode, f.payload, "invalid utf-8 in text frame", env);
    DeliverKeeps(c0, c.fragOpcode, c.fragBuf + f.payload, "invalid utf-8 in text message", env);
    assert [] + f.payload == f.payload;
  }

  /** Whatever one turn of the loop does, the reassembly state stays sound and the limits are kept. */
  lemma StepKeepsFrag(c: Conn, env: Env)
    requires FragOk(c)
    ensures var (c', r) := ReadStep(c, env); FragOk(c') && c'.isServer == c.isServer && c'.readLimit == c.readLimit
  {
    hide WriteControl, WriteClose, DecodeFrame, HandleControl, IsControl, TakeData, Ascii;
    var d := DecodeFrame(c.isServer, c.readLimit, c.input);
    match d
    case Got(f, rest) =>
      GotAcceptable(c.isServer, c.readLimit, c.input);
      hide Acceptable, LegalOpcode;
      DataOpcodes(f.opcode);
      if IsControl(f.opcode) { ControlKeepsReader(c.(input := rest), f, env); }
      else { TakeDataCases(c.(input := rest), f, env); }
    case Bad(reason, rest) => WritesKeepReader(c.(input := rest), OpPong, Ascii(reason), CLOSE_PROTOCOL_ERROR, env);
    case TooBig(rest) => WritesKeepReader(c.(input := rest), OpPong, Ascii("message too big"), CLOSE_TOO_BIG, env);
    case Short =>
  }

  /** What the decoder accepts is a legal frame within the limits. */
  lemma GotAcceptable(isServer: bool, limit: nat, input: seq<byte>)
    requires DecodeFrame(isServer, limit, input).Got?
    ensures Acceptable(DecodeFrame(isServer, limit, input).frame, limit)
  {
    hide Mask, GetBE, OpcodeOf, HasRsv, HasFin, HasMask, CodeOf, IsControl;
  }

  /** A written frame is read back by the opposite role exactly when it is legal and within the limits. */
  lemma FrameReadExactly(isServer: bool, f: Frame, key: MaskKey, limit: nat, rest: seq<byte>)
    requires |f.payload| <= MAX_INT64
    ensures DecodeFrame(!isServer, limit, EncodeFrame(isServer, f, key) + rest) == Got(f, rest) <==>
            Acceptable(f, limit)
  {
    hide DecodeFrame, EncodeFrame, Acceptable;
    if Acceptable(f, limit) { FrameRoundTrip(isServer, f, key, limit, rest); }
    if DecodeFrame(!isServer, limit, EncodeFrame(isServer, f, key) + rest).Got? {
      GotAcceptable(!isServer, limit, EncodeFrame(isServer, f, key) + rest);
    }
  }

  lemma {:induction false} ReadKeepsFrag(c: Conn, env: Env)
    requires FragOk(c)
    ensures var (c', r) := ReadMessage(c, env); FragOk(c') && c'.isServer == c.isServer && c'.readLimit == c.readLimit
    decreases |c.input|
  {
    hide ReadStep;
    StepKeepsFrag(c, env);
    var (c', r) := ReadStep(c, env);
    if r.None? { ReadKeepsFrag(c', env); }
  }

  // ---- what was read ----

  /** The frames consumed by one `ReadMessage`. */
  function FramesRead(c: Conn, env: Env): seq<Frame>
    decreases |c.input|
  {
    var d := DecodeFrame(c.isServer, c.readLimit, c.input);
    if !d.Got? then []
    else
      var (c', r) := ReadStep(c, env);
      [d.frame] + if r.None? then FramesRead(c', env) else []
  }

  function DataFrames(fs: seq<Frame>): seq<Frame> {
    if fs == [] then [] else (if IsControl(fs[0].opcode) then [] else [fs[0]]) + DataFrames(fs[1..])
  }

  function Payloads(fs: seq<Frame>): seq<byte> {
    if fs == [] then [] else fs[0].payload + Payloads(fs[1..])
  }

  /** A split of one message: only the last frame is final, only the first carries the opcode. */
  predicate SplitOf(ds: seq<Frame>, op: byte, started: bool) {
    && ds != []
    && (ds[0].opcode == if started then OpContinuation else op)
    && (forall i :: 1 <= i < |ds| ==> ds[i].opcode == OpContinuation)
    && (forall i :: 0 <= i < |ds| ==> (ds[i].fin <==> i == |ds| - 1))
  }

  /** A message is only ever returned for a complete, in-order split of it; control frames do not matter. */
  lemma {:induction false} MessageIsSplit(c: Conn, env: Env)
    requires FragOk(c) && ReadMessage(c, env).1.Message?
    ensures var Message(op, data) := ReadMessage(c, env).1;
            var ds := DataFrames(FramesRead(c, env));
            && SplitOf(ds, op, c.fragOpcode != 0) && (c.fragOpcode != 0 ==> op == c.fragOpcode)
            && (op == OpText || op == OpBinary)
            && data == c.fragBuf + Payloads(ds) && |data| <= c.readLimit && (op == OpText ==> env.utf8(data))
    decreases |c.input|
  {
    hide ReadStep, DecodeFrame, TakeData, HandleControl, IsControl, DataFrames, Payloads, SplitOf;
    var (c', r) := ReadStep(c, env);
    var d := DecodeFrame(c.isServer, c.readLimit, c.input);
    StepKeepsFrag(c, env);
    StepFrame(c, env);
    var f, c1 := d.frame, c.(input := d.rest);
    GotAcceptable(c.isServer, c.readLimit, c.input);
    DataOpcodes(f.opcode);
    if IsControl(f.opcode) {
      MessageIsSplit(c', env);
      ControlSplit(f, FramesRead(c', env));
    } else {
      TakeDataCases(c1, f, env);
      if f.fin {
        DataSplit(f, []);
        SingleSplit(f, if c.fragOpcode != 0 then c.fragOpcode else f.opcode, c.fragOpcode != 0);
      } else {
        MessageIsSplit(c', env);
        DataSplit(f, FramesRead(c', env));
        var ds := DataFrames(FramesRead(c', env));
        SplitExtended(f, ds, if c.fragOpcode != 0 then c.fragOpcode else f.opcode, c.fragOpcode != 0);
        assert (c.fragBuf + f.payload) + Payloads(ds) == c.fragBuf + (f.payload + Payloads(ds));
      }
    }
  }

  /** A turn that does not fail reads a frame and hands it to the control or the data branch. */
  lemma StepFrame(c: Conn, env: Env)
    requires ReadStep(c, env).1 != None ==> ReadStep(c, env).1.value.Message?
    ensures var d := DecodeFrame(c.isServer, c.readLimit, c.input);
            && d.Got?
            && (if IsControl(d.frame.opcode) then
                  ReadStep(c, env) == (HandleControl(c.(input := d.rest), d.frame, env).0, None)
                  && SameReader(c.(input := d.rest), ReadStep(c, env).0)
                else ReadStep(c, env) == TakeData(c.(input := d.rest), d.frame, env))
  {
    hide DecodeFrame, TakeData, HandleControl, IsControl, WriteClose, Ascii;
    var d := DecodeFrame(c.isServer, c.readLimit, c.input);
    if d.Got? { ControlKeepsReader(c.(input := d.rest), d.frame, env); }
  }

  lemma ControlSplit(f: Frame, fs: seq<Frame>)
    requires IsControl(f.opcode)
    ensures DataFrames([f] + fs) == DataFrames(fs)
  {
    assert ([f] + fs)[1..] == fs;
  }

  lemma DataSplit(f: Frame, fs: seq<Frame>)
    requires !IsControl(f.opcode)
    ensures DataFrames([f] + fs) == [f] + DataFrames(fs)
    ensures Payloads([f] + DataFrames(fs)) == f.payload + Payloads(DataFrames(fs))
    ensures fs == [] ==> DataFrames([f] + fs) == [f] && Payloads([f]) == f.payload
  {
    assert ([f] + fs)[1..] == fs && ([f] + DataFrames(fs))[1..] == DataFrames(fs) && [f][1..] == [];
  }

  lemma SingleSplit(f: Frame, op: byte, started: bool)
    requires f.fin && f.opcode == if started then OpContinuation else op
    ensures SplitOf([f], op, started)
  {
  }

  lemma SplitExtended(f: Frame, ds: seq<Frame>, op: byte, started: bool)
    requires SplitOf(ds, op, true) && !f.fin && f.opcode == if started then OpContinuation else op
    ensures SplitOf([f] + ds, op, started)
  {
  }
}
