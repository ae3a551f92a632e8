/** Which close frames an endpoint sends over any run: the owner may write raw ones besides the one of the handshake. */
module WsRuns {
  import opened Bytes
  import opened WsFrames
  import opened WsSession
  import opened WsClosing
  import opened WsMessages

  /** Anything the owner of an endpoint may do, and the arrival of bytes from the peer. */
  datatype Action =
    | DoWrite(op: byte, data: seq<byte>) | DoControl(op: byte, data: seq<byte>) | DoClose(code: int, text: seq<byte>)
    | DoRead | Arrive(bytes: seq<byte>) | Shut

  /** A slice has a length in 64 bits. */
  predicate Sized(a: Action) { a.DoWrite? ==> |a.data| <= MAX_INT64 }

  predicate AllSized(actions: seq<Action>) {
    forall i :: 0 <= i < |actions| ==> Sized(actions[i])
  }

  function Act(c: Conn, a: Action, env: Env): Conn
    requires Sized(a)
  {
    match a
    case DoWrite(op, data) => WriteMessage(c, op, data, env).0
    case DoControl(op, data) => WriteControl(c, op, data, env).0
    case DoClose(code, text) => WriteClose(c, code, text, env).0
    case DoRead => ReadMessage(c, env).0
    case Arrive(bytes) => c.(input := c.input + bytes)
    case Shut => c.(closed := true)
  }

  function RunAll(c: Conn, actions: seq<Action>, env: Env): Conn
    requires AllSized(actions)
    decreases |actions|
  {
    if actions == [] then c else RunAll(Act(c, actions[0], env), actions[1..], env)
  }

  // ---- where close frames come from ----

  /** A control frame of the owner that the peer takes for a close. */
  predicate IsRawClose(a: Action) {
    a.DoControl? && IsClose(Frame(true, a.op, a.data)) && |a.data| <= MAX_CONTROL_PAYLOAD
  }

  /** The close frames written past the handshake, known from the calls alone. */
  function RawCloses(closed: bool, actions: seq<Action>): seq<Frame>
    decreases |actions|
  {
    if actions == [] then []
    else
      (if IsRawClose(actions[0]) && !closed then [Frame(true, actions[0].op, actions[0].data)] else []) +
      RawCloses(closed || actions[0].Shut?, actions[1..])
  }

  /** The close frame of the handshake: by `WriteClose` or by a reader, whichever comes first. */
  function OwnClose(c: Conn, a: Action, env: Env): seq<Frame> {
    match a
    case DoClose(code, text) =>
      if c.closeSent || c.closed || |text| > 123 then [] else [CloseFrame(code, text)]
    case DoRead => NewCloses(c, ReadMessage(c, env).0)
    case _ => []
  }

  function OwnCloses(c: Conn, actions: seq<Action>, env: Env): seq<Frame>
    requires AllSized(actions)
    decreases |actions|
  {
    if actions == [] then []
    else OwnClose(c, actions[0], env) + OwnCloses(Act(c, actions[0], env), actions[1..], env)
  }

  /** The owner closes with a code that may not appear on the wire, in this frame. */
  predicate IsBadClose(a: Action, f: Frame) {
    a.DoClose? && !ValidCloseCode(a.code % 0x1_0000) && |a.text| <= 123 && f == CloseFrame(a.code, a.text)
  }

  predicate FromBadClose(f: Frame, actions: seq<Action>) {
    exists i :: 0 <= i < |actions| && IsBadClose(actions[i], f)
  }

  lemma {:induction false} ReadKeepsClosed(c: Conn, env: Env)
    ensures ReadMessage(c, env).0.closed == c.closed
    decreases |c.input|
  {
    hide ReadStep;
    StepKeepsClosed(c, env);
    var (c', r) := ReadStep(c, env);
    if r.None? { ReadKeepsClosed(c', env); }
  }

  lemma StepKeepsClosed(c: Conn, env: Env)
    ensures ReadStep(c, env).0.closed == c.closed
  {
    hide WriteClose, WriteControl, HandleControl, TakeData, DecodeFrame, IsControl, Ascii;
    forall c1: Conn, code: int, text ensures WriteClose(c1, code, text, env).0.closed == c1.closed {
      WritesKeepReader(c1, OpPong, text, code, env);
    }
    match DecodeFrame(c.isServer, c.readLimit, c.input)
    case Got(f, rest) =>
      ControlKeepsReader(c.(input := rest), f, env);
      DataKeepsClosed(c.(input := rest), f, env);
    case _ =>
  }

  lemma DataKeepsClosed(c: Conn, f: Frame, env: Env)
    ensures TakeData(c, f, env).0.closed == c.closed
  {
    hide WriteClose, Ascii;
    forall c1: Conn, code: int, text ensures WriteClose(c1, code, text, env).0.closed == c1.closed {
      WritesKeepReader(c1, OpPong, text, code, env);
    }
  }

  /** One action: what it sends, and what it leaves of the right to close. */
  ghost predicate Accounts(c: Conn, c': Conn, raw: seq<Frame>, own: seq<Frame>, env: Env) {
    && Tracks(c, c', env) && (c.closeSent ==> c'.closeSent)
    && NewCloses(c, c') == raw + own && |raw| + |own| <= 1
    && (own != [] ==> !c.closeSent && c'.closeSent)
  }

  lemma NothingNew(c: Conn, c': Conn, env: Env)
    requires c'.sent == c.sent && c'.output == c.output && c'.isServer == c.isServer
    ensures Tracks(c, c', env) && NewCloses(c, c') == []
  {
    TracksReflexive(c', env);
    TracksReader(c, c', c', env);
    assert c'.sent[|c.sent|..] == [];
  }

  lemma OneSent(c: Conn, c1: Conn, f: Frame, env: Env)
    requires c1.sent == c.sent && c1.output == c.output && c1.isServer == c.isServer && |f.payload| <= MAX_INT64
    ensures var c' := Send(c1, f, env);
            Tracks(c, c', env) && NewCloses(c, c') == if IsClose(f) then [f] else []
  {
    SendTracks(c1, f, env);
    SendCloses(c1, f, env);
    hide EncodeFrame;
    TracksReader(c, c1, Send(c1, f, env), env);
  }

  lemma ActAccounts(c: Conn, a: Action, env: Env)
    requires Sized(a)
    ensures Accounts(c, Act(c, a, env), RawCloses(c.closed, [a]), OwnClose(c, a, env), env)
    ensures Act(c, a, env).closed == (c.closed || a.Shut?)
  {
    hide EncodeFrame, WriteClose, ReadMessage, ClosePayload, IsClose, IsControl, Tracks, NewCloses;
    assert [a][1..] == [];
    CloseBits();
    match a
    case DoWrite(op, data) =>
      NothingNew(c, c, env);
      OneSent(c, c, Frame(true, op, data), env);
    case DoControl(op, data) =>
      NothingNew(c, c, env);
      if |data| <= MAX_CONTROL_PAYLOAD { OneSent(c, c, Frame(true, op, data), env); }
    case DoClose(code, text) =>
      WriteCloseExact(c, code, text, env);
      var c1 := c.(closeSent := true);
      NothingNew(c, c1, env);
      if |text| <= 123 { OneSent(c, c1, CloseFrame(code, text), env); }
    case DoRead =>
      ReadMessageGrew(c, env);
      ReadKeepsClosed(c, env);
    case _ => NothingNew(c, Act(c, a, env), env);
  }

  lemma OwnCode(c: Conn, a: Action, env: Env)
    ensures forall f :: f in OwnClose(c, a, env) ==> ValidClose(f) || IsBadClose(a, f)
  {
    hide WriteClose, ReadMessage, ClosePayload, GetBE;
    match a
    case DoClose(code, text) => CodeOnWire(code, text);
    case DoRead => ReadMessageGrew(c, env);
    case _ =>
  }

  /** Over any run the close frames sent are the raw ones, in their order, and at most one of the handshake among them;
      that one has a valid code unless the owner passed the bad one it carries. */
  lemma {:induction false} ClosesOfRun(c: Conn, actions: seq<Action>, env: Env) returns (k: nat)
    requires AllSized(actions)
    ensures var c', raw, own := RunAll(c, actions, env), RawCloses(c.closed, actions), OwnCloses(c, actions, env);
            && Tracks(c, c', env) && k <= |raw| && NewCloses(c, c') == raw[..k] + own + raw[k..]
            && |own| <= 1 && (c.closeSent ==> own == [])
            && forall f :: f in own ==> ValidClose(f) || FromBadClose(f, actions)
    decreases |actions|
  {
    hide Act, OwnClose, Tracks, NewCloses, IsRawClose, ValidClose, IsBadClose;
    if actions == [] {
      NothingSent(c, env);
      return 0;
    }
    var a, rest := actions[0], actions[1..];
    var c1 := Act(c, a, env);
    ActAccounts(c, a, env);
    OwnCode(c, a, env);
    var k1 := ClosesOfRun(c1, rest, env);
    var c' := RunAll(c1, rest, env);
    TracksTransitive(c, c1, c', env);
    AccountsJoin(c, c1, c', env);
    var raw, raws := RawCloses(c.closed, [a]), RawCloses(c1.closed, rest);
    var own, owns := OwnClose(c, a, env), OwnCloses(c1, rest, env);
    RawSplit(c.closed, a, rest);
    k := if own != [] then |raw| else |raw| + k1;
    Interleaved(raw, own, raws, owns, k1);
    forall f | f in own + owns ensures ValidClose(f) || FromBadClose(f, actions) {
      if f in owns && FromBadClose(f, rest) {
        var i :| 0 <= i < |rest| && IsBadClose(rest[i], f);
        assert actions[i + 1] == rest[i];
      }
    }
  }

  lemma NothingSent(c: Conn, env: Env)
    ensures Tracks(c, c, env) && NewCloses(c, c) == []
  {
    GrewReflexive(c, env);
  }

  lemma AccountsJoin(c: Conn, c1: Conn, c': Conn, env: Env)
    requires Tracks(c, c1, env) && Tracks(c1, c', env)
    ensures NewCloses(c, c') == NewCloses(c, c1) + NewCloses(c1, c')
  {
    NewClosesJoin(c, c1, c');
  }

  lemma RawSplit(closed: bool, a: Action, rest: seq<Action>)
    ensures RawCloses(closed, [a] + rest) == RawCloses(closed, [a]) + RawCloses(closed || a.Shut?, rest)
  {
    assert ([a] + rest)[1..] == rest && [a][1..] == [];
  }

  /** One action's frames in front of those of the rest of the run. */
  lemma Interleaved(raw: seq<Frame>, own: seq<Frame>, raws: seq<Frame>, owns: seq<Frame>, k: nat)
    requires k <= |raws| && |raw| + |own| <= 1 && (own != [] ==> owns == [])
    ensures var all, at := raw + raws, if own != [] then |raw| else |raw| + k;
            raw + own + (raws[..k] + owns + raws[k..]) == all[..at] + (own + owns) + all[at..]
  {
    assert raws[..k] + raws[k..] == raws;
    if own == [] {
      assert (raw + raws)[..|raw| + k] == raw + raws[..k] && (raw + raws)[|raw| + k..] == raws[k..];
    } else {
      assert raw == [] && owns == [];
    }
  }

  /** At most one close frame is sent exactly when the raw ones and the one of the handshake are together at most one;
      and all codes are valid exactly when those of the raw ones are, and that of the handshake. */
  lemma CloseFramesOfRun(c: Conn, actions: seq<Action>, env: Env)
    requires AllSized(actions)
    ensures var fs, raw := NewCloses(c, RunAll(c, actions, env)), RawCloses(c.closed, actions);
            var own := OwnCloses(c, actions, env);
            && (|fs| <= 1 <==> |raw| + |own| <= 1) && |own| <= 1
            && ((forall f :: f in fs ==> ValidClose(f)) <==> forall f :: f in raw + own ==> ValidClose(f))
            && (forall f :: f in own && !ValidClose(f) ==> FromBadClose(f, actions))
  {
    var k := ClosesOfRun(c, actions, env);
    var raw := RawCloses(c.closed, actions);
    assert raw[..k] + raw[k..] == raw;
    hide ValidClose, FromBadClose, RunAll, OwnCloses;
  }

  // ---- what an owner may do ----

  /** A new connection, of either role and with any limit. */
  predicate NewConn(c: Conn) {
    !c.closed && !c.closeSent && c.fragOpcode == 0 && c.fragBuf == c.input == c.output == [] && c.sent == []
  }

  predicate Uses(actions: seq<Action>, allowed: iset<Action>) {
    forall i :: 0 <= i < |actions| ==> actions[i] in allowed && Sized(actions[i])
  }

  predicate HasBadCode(a: Action) {
    || (IsRawClose(a) && !ValidClose(Frame(true, a.op, a.data)))
    || (a.DoClose? && !ValidCloseCode(a.code % 0x1_0000) && |a.text| <= 123)
  }

  /** Whatever the owner does of these, and whatever the peer sends: at most one close frame is ever sent exactly when
      the owner writes no raw close frame. */
  lemma AtMostOneCloseExactly(allowed: iset<Action>)
    ensures (forall c, actions, env | NewConn(c) && Uses(actions, allowed) ::
               |NewCloses(c, RunAll(c, actions, env))| <= 1)
            <==> forall a :: a in allowed ==> !IsRawClose(a)
  {
    if a :| a in allowed && IsRawClose(a) {
      var c, env, actions := FreshConn(), AnyEnv(), [a, a];
      RawTwice(c, a, env);
      assert Uses(actions, allowed);
    } else {
      forall c, actions, env | NewConn(c) && Uses(actions, allowed)
        ensures |NewCloses(c, RunAll(c, actions, env))| <= 1
      {
        NoRawCloses(c.closed, actions);
        CloseFramesOfRun(c, actions, env);
      }
    }
  }

  /** And every code on the wire is valid exactly when the owner passes no bad one in a frame that can be sent. */
  lemma CodesValidExactly(allowed: iset<Action>)
    ensures (forall c, actions, env, f | NewConn(c) && Uses(actions, allowed) ::
               f in NewCloses(c, RunAll(c, actions, env)) ==> ValidClose(f))
            <==> forall a :: a in allowed ==> !HasBadCode(a)
  {
    if a :| a in allowed && HasBadCode(a) {
      var c, env, actions := FreshConn(), AnyEnv(), [a];
      var f := BadOnce(c, a, env);
      assert Uses(actions, allowed);
    } else {
      forall c, actions, env, f | NewConn(c) && Uses(actions, allowed) && f in NewCloses(c, RunAll(c, actions, env))
        ensures ValidClose(f)
      {
        GoodRawCloses(c.closed, actions);
        CloseFramesOfRun(c, actions, env);
      }
    }
  }

  function FreshConn(): (c: Conn)
    ensures NewConn(c)
  {
    Conn(true, MAX_INT64, 0, [], false, false, [], [], [])
  }

  function AnyEnv(): Env { Env(n => [0, 0, 0, 0], b => true) }

  lemma {:induction false} NoRawCloses(closed: bool, actions: seq<Action>)
    requires forall i :: 0 <= i < |actions| ==> !IsRawClose(actions[i])
    ensures RawCloses(closed, actions) == []
    decreases |actions|
  {
    hide IsRawClose;
    if actions != [] { NoRawCloses(closed || actions[0].Shut?, actions[1..]); }
  }

  lemma {:induction false} GoodRawCloses(closed: bool, actions: seq<Action>)
    requires forall i :: 0 <= i < |actions| ==> !HasBadCode(actions[i])
    ensures forall f :: f in RawCloses(closed, actions) ==> ValidClose(f)
    ensures forall f :: !FromBadClose(f, actions)
    decreases |actions|
  {
    hide ValidClose, IsClose, ClosePayload;
    if actions != [] { GoodRawCloses(closed || actions[0].Shut?, actions[1..]); }
  }

  lemma RawTwice(c: Conn, a: Action, env: Env)
    requires NewConn(c) && IsRawClose(a)
    ensures |NewCloses(c, RunAll(c, [a, a], env))| == 2
  {
    hide Act, NewCloses, Tracks;
    var k := ClosesOfRun(c, [a, a], env);
    RawSplit(c.closed, a, [a]);
    assert [a, a] == [a] + [a] && [a][1..] == [];
    assert |RawCloses(c.closed, [a])| == 1;
    OwnSplit(c, a, a, env);
  }

  lemma OwnSplit(c: Conn, a: Action, b: Action, env: Env)
    requires Sized(a) && Sized(b)
    ensures OwnCloses(c, [a, b], env) == OwnClose(c, a, env) + OwnClose(Act(c, a, env), b, env)
    ensures RunAll(c, [a, b], env) == Act(Act(c, a, env), b, env)
  {
    hide OwnClose, Act;
    assert [a, b][1..] == [b] && [b][1..] == [];
    var c1 := Act(c, a, env);
    assert RunAll(c1, [b], env) == Act(c1, b, env);
    assert OwnCloses(c1, [b], env) == OwnClose(c1, b, env);
  }

  lemma BadOnce(c: Conn, a: Action, env: Env) returns (f: Frame)
    requires NewConn(c) && HasBadCode(a)
    ensures f in NewCloses(c, RunAll(c, [a], env)) && !ValidClose(f)
  {
    hide Act, NewCloses, Tracks, GetBE, ClosePayload, IsClose, FromBadClose;
    assert [a][1..] == [];
    if a.DoClose? {
      f := CloseFrame(a.code, a.text);
      CodeOnWire(a.code, a.text);
    } else {
      f := Frame(true, a.op, a.data);
    }
    var k := ClosesOfRun(c, [a], env);
    var raw, own := RawCloses(c.closed, [a]), OwnCloses(c, [a], env);
    assert f in raw[..k] + own + raw[k..];
  }

  /** A raw close without a status, then an ordinary one: two close frames on the wire. */
  lemma RawThenClose(c: Conn, env: Env)
    requires NewConn(c)
    ensures var c' := RunAll(c, [DoControl(OpClose, []), DoClose(CLOSE_NORMAL, [])], env);
            c'.sent == [Frame(true, OpClose, []), CloseFrame(CLOSE_NORMAL, [])]
  {
    hide EncodeFrame, WriteClose, ClosePayload;
    var a, b := DoControl(OpClose, []), DoClose(CLOSE_NORMAL, []);
    var c1 := Act(c, a, env);
    CloseBits();
    WriteCloseExact(c1, CLOSE_NORMAL, [], env);
    OwnSplit(c, a, b, env);
    assert c1.sent == [Frame(true, OpClose, [])];
  }
}
