/** Whole messages: encoding, decoding into a message that is reused, and streams of messages. */
module RpcStream {
  import Text
  import opened Bytes
  import opened RpcHeader
  import opened RpcMessage

  // ---- encoding ----

  /** The five fields behind the length. */
  function PutBody(m: MessageValue, meta: seq<byte>): seq<byte> {
    PutField(m.path) + (PutField(Get(m.header, ServicePath)) + (PutField(Get(m.header, ServiceMethod)) +
    (PutField(meta) + PutField(m.payload))))
  }

  /** The bytes of a message whose metadata is written with its keys in the order `ks`. */
  function EncodeMessage(m: MessageValue, ks: seq<Str>): seq<byte>
    requires forall k :: k in ks ==> k in m.header
  {
    Framed(m.bom, PutBody(m, PutPairs(ks, m.header)))
  }

  function Framed(bom: Bom, body: seq<byte>): seq<byte> {
    bom + PutLength(|body|) + body
  }

  /** Four bytes in big-endian order as a number. */
  function Number(b: seq<byte>, at: nat): nat
    requires at + 4 <= |b|
  {
    ((OfByte(b[at]) * 256 + OfByte(b[at + 1])) * 256 + OfByte(b[at + 2])) * 256 + OfByte(b[at + 3])
  }

  lemma FourBytes(b: seq<byte>, at: nat)
    requires at + 4 <= |b|
    ensures GetBE(b[at..at + 4]) == Number(b, at)
  {
    hide OfByte, GetBE;
    var s := b[at..at + 4];
    assert s == [b[at]] + [b[at + 1]] + [b[at + 2]] + [b[at + 3]];
    assert [] + [b[at]] == [b[at]];
    EmptyIsZero();
    GetAppend([], b[at]);
    GetAppend([b[at]], b[at + 1]);
    GetAppend([b[at]] + [b[at + 1]], b[at + 2]);
    GetAppend([b[at]] + [b[at + 1]] + [b[at + 2]], b[at + 3]);
  }

  /** The field that begins at `at`: its length, then its bytes. */
  ghost predicate FieldAt(b: seq<byte>, at: nat, s: Str) {
    at + 4 + |s| <= |b| && Number(b, at) == |s| && b[at + 4..at + 4 + |s|] == s
  }

  /** Exactly these fields, one behind the other, up to the end. */
  ghost predicate FieldsAt(b: seq<byte>, at: nat, ss: seq<Str>)
    decreases |ss|
  {
    if ss == [] then at == |b| else FieldAt(b, at, ss[0]) && FieldsAt(b, at + 4 + |ss[0]|, ss[1..])
  }

  function PutFields(ss: seq<Str>): seq<byte> {
    if ss == [] then [] else PutField(ss[0]) + PutFields(ss[1..])
  }

  lemma {:induction false} FieldsInOrder(b: seq<byte>, front: seq<byte>, ss: seq<Str>)
    requires b == front + PutFields(ss) && forall i :: 0 <= i < |ss| ==> |ss[i]| < U32
    ensures FieldsAt(b, |front|, ss)
    decreases |ss|
  {
    hide Number, PutField, FieldAt;
    if ss != [] {
      FieldIn(front, ss[0], PutFields(ss[1..]));
      Text.Joined(front, PutField(ss[0]), PutFields(ss[1..]));
      FieldsInOrder(b, front + PutField(ss[0]), ss[1..]);
    }
  }

  lemma FieldIn(front: seq<byte>, s: Str, back: seq<byte>)
    requires |s| < U32
    ensures FieldAt(front + (PutField(s) + back), |front|, s)
  {
    var b := front + (PutField(s) + back);
    LengthBack(|s|);
    FourBytes(b, |front|);
    assert b[|front|..|front| + 4] == PutLength(|s|);
    hide PutLength, GetBE, Number;
  }

  /** A message on the wire: the header, the length of what follows, and five fields one behind the other: path, service
      path, service method, metadata and payload. */
  lemma MessageLayout(m: MessageValue, ks: seq<Str>, max: nat)
    requires Sendable(m, ks, max)
    ensures var b := EncodeMessage(m, ks);
            && |b| >= 16 && b[..12] == m.bom && Number(b, 12) == |b| - 16
            && FieldsAt(b, 16, [m.path, Get(m.header, ServicePath), Get(m.header, ServiceMethod),
                                PutPairs(ks, m.header), m.payload])
  {
    SendableFits(m, ks, max);
    var front := BodyStarts(m, ks, max);
    hide *;
    FieldsInOrder(EncodeMessage(m, ks), front, [m.path, Get(m.header, ServicePath), Get(m.header, ServiceMethod),
                                                PutPairs(ks, m.header), m.payload]);
  }

  /** Every key, followed by its value. */
  function Alternating(ks: seq<Str>, m: map<Str, Str>): seq<Str>
    requires forall k :: k in ks ==> k in m
  {
    if ks == [] then [] else [ks[0], m[ks[0]]] + Alternating(ks[1..], m)
  }

  /** The metadata field holds, for every key in turn, the field of the key and that of its value. */
  lemma {:induction false} MetadataLayout(ks: seq<Str>, m: map<Str, Str>)
    requires forall k :: k in ks ==> k in m
    ensures PutPairs(ks, m) == PutFields(Alternating(ks, m))
  {
    hide PutField;
    if ks != [] {
      MetadataLayout(ks[1..], m);
      var all, rest := Alternating(ks, m), Alternating(ks[1..], m);
      assert all[0] == ks[0] && all[1..][0] == m[ks[0]] && all[1..][1..] == rest;
      Text.Joined(PutField(ks[0]), PutField(m[ks[0]]), PutFields(rest));
    }
  }

  /** The header and the length in front of the fields. */
  lemma BodyStarts(m: MessageValue, ks: seq<Str>, max: nat) returns (front: seq<byte>)
    requires Sendable(m, ks, max)
    ensures var b := EncodeMessage(m, ks);
            && |front| == 16 && |b| >= 16 && b[..12] == m.bom && Number(b, 12) == |b| - 16
            && b == front + PutFields([m.path, Get(m.header, ServicePath), Get(m.header, ServiceMethod),
                                       PutPairs(ks, m.header), m.payload])
  {
    var b, body := EncodeMessage(m, ks), PutBody(m, PutPairs(ks, m.header));
    front := m.bom + PutLength(|body|);
    LengthBack(|body|);
    FourBytes(b, 12);
    assert b == front + body;
    hide PutField, PutLength, PutPairs, Get, Number, GetBE, PutBody;
    assert b[12..16] == PutLength(|body|) && b[..12] == m.bom;
    FiveFields(m, PutPairs(ks, m.header));
  }

  lemma FiveFields(m: MessageValue, meta: seq<byte>)
    ensures PutBody(m, meta) ==
            PutFields([m.path, Get(m.header, ServicePath), Get(m.header, ServiceMethod), meta, m.payload])
  {
    hide PutField, Get;
    var ss := [m.path, Get(m.header, ServicePath), Get(m.header, ServiceMethod), meta, m.payload];
    assert ss[1..] == [ss[1], ss[2], ss[3], ss[4]] && ss[1..][1..] == [ss[2], ss[3], ss[4]];
    assert ss[1..][1..][1..] == [ss[3], ss[4]] && [ss[3], ss[4]][1..] == [ss[4]] && [ss[4]][1..] == [];
    assert PutFields([ss[4]]) == PutField(ss[4]) + [] == PutField(ss[4]);
    assert PutFields([ss[3], ss[4]]) == PutField(ss[3]) + PutField(ss[4]);
    assert PutFields([ss[2], ss[3], ss[4]]) == PutField(ss[2]) + PutFields([ss[3], ss[4]]);
  }

  // ---- decoding ----

  /** The fields of a body, written into the message one after the other: an error leaves the earlier ones changed. */
  function TakeBody(m: MessageValue, data: seq<byte>): (MessageValue, Status) {
    var path := TakeField(data);
    if path.None? then (m, Malformed)
    else TakeService(m.(path := path.value.0), path.value.1)
  }

  function TakeService(m: MessageValue, data: seq<byte>): (MessageValue, Status) {
    var sp := TakeField(data);
    if sp.None? then (m, Malformed)
    else
      var m1 := m.(header := m.header[ServicePath := sp.value.0]);
      var sm := TakeField(sp.value.1);
      if sm.None? then (m1, Malformed)
      else TakeRest(m1.(header := m1.header[ServiceMethod := sm.value.0]), sm.value.1)
  }

  function TakeRest(m: MessageValue, data: seq<byte>): (MessageValue, Status) {
    var meta := TakeField(data);
    if meta.None? then (m, Malformed)
    else
      var pairs := TakePairs(meta.value.0, map[]);
      if pairs.None? then (m, MetaMissing)
      else
        var m1 := m.(header := m.header + pairs.value);
        var payload := TakeField(meta.value.1);
        if payload.None? then (m1, Malformed) else (m1.(payload := payload.value.0), Done)
  }

  /** `Decode`: the message after the call, how it ended, and what remains of the stream. A zero `max` is no limit. */
  function DecodeMessage(m: MessageValue, input: seq<byte>, max: nat): (r: (MessageValue, Status, seq<byte>))
    ensures |r.2| <= |input| && (r.1.Done? ==> |r.2| < |input|)
  {
    if input == [] then (m, EndOfInput, [])
    else if input[0] != MAGIC then (m.(bom := [input[0]] + m.bom[1..]), WrongMagic(input[0]), input[1..])
    else if |input| < 12 then (m.(bom := input + m.bom[|input|..]), EndOfInput, [])
    else DecodeLength(m.(bom := input[..12]), input[12..], max)
  }

  function DecodeLength(m: MessageValue, r: seq<byte>, max: nat): (d: (MessageValue, Status, seq<byte>))
    ensures |d.2| <= |r|
  {
    if |r| < 4 then (m, EndOfInput, [])
    else
      var l := GetBE(r[..4]);
      if max > 0 && l > max then (m, TooLong, r[4..])
      else if |r| < 4 + l then (m, EndOfInput, [])
      else
        var (m', status) := TakeBody(m.(body := r[4..4 + l]), r[4..4 + l]);
        (m', status, r[4 + l..])
  }

  /** How decoding ends on any stream, in terms of its bytes: the magic number comes first, then the header and the
      length must be there, then the length must keep the limit, and then the body must be there. */
  lemma OutcomesTold(m: MessageValue, input: seq<byte>, max: nat)
    ensures var (_, status, rest) := DecodeMessage(m, input, max);
            if input == [] then status == EndOfInput && rest == []
            else if OfByte(input[0]) != 8 then status == WrongMagic(input[0]) && rest == input[1..]
            else if |input| < 16 then status == EndOfInput && rest == []
            else
              var n := Number(input, 12);
              if 0 < max < n then status == TooLong && rest == input[16..]
              else if |input| < 16 + n then status == EndOfInput && rest == []
              else (status.Done? || status.Malformed? || status.MetaMissing?) && rest == input[16 + n..]
  {
    hide TakeBody, Number;
    if input != [] {
      MagicByte(input[0]);
      if |input| >= 16 {
        FourBytes(input, 12);
        var r := input[12..];
        assert r[..4] == input[12..16] && r[4..] == input[16..];
        if |r| >= 4 + Number(input, 12) && !(0 < max < Number(input, 12)) { BodyEnds(m.(bom := input[..12]), r, max); }
      }
    }
  }

  lemma MagicByte(b: byte)
    ensures OfByte(b) == 8 <==> b == MAGIC
  {
    if OfByte(b) == 8 { SameByte(b, MAGIC); }
  }

  lemma BodyEnds(m: MessageValue, r: seq<byte>, max: nat)
    requires |r| >= 4 && |r| >= 4 + GetBE(r[..4]) && !(0 < max < GetBE(r[..4]))
    ensures var (_, status, rest) := DecodeLength(m, r, max);
            (status.Done? || status.Malformed? || status.MetaMissing?) && rest == r[4 + GetBE(r[..4])..]
  {
    hide TakeField, TakePairs, GetBE;
  }

  /** Behind four whole fields, a body is refused for its metadata exactly when that is no list of pairs. */
  lemma MetadataRefused(m: MessageValue, path: Str, sp: Str, sm: Str, meta: Str, rest: seq<byte>)
    requires |path| < U32 && |sp| < U32 && |sm| < U32 && |meta| < U32
    ensures var (_, status) := TakeBody(m, PutField(path) + (PutField(sp) + (PutField(sm) + (PutField(meta) + rest))));
            && (status.MetaMissing? <==> TakePairs(meta, map[]).None?)
            && (status.Done? <==> TakePairs(meta, map[]).Some? && TakeField(rest).Some?)
            && (status.Malformed? <==> TakePairs(meta, map[]).Some? && TakeField(rest).None?)
  {
    hide PutField, TakeField, TakePairs;
    FieldRoundTrip(path, PutField(sp) + (PutField(sm) + (PutField(meta) + rest)));
    FieldRoundTrip(sp, PutField(sm) + (PutField(meta) + rest));
    FieldRoundTrip(sm, PutField(meta) + rest);
    FieldRoundTrip(meta, rest);
  }

  // ---- round trip ----

  /** What a receiver finds in the header: the two service entries are always there. */
  function Complete(h: map<Str, Str>): map<Str, Str> {
    map[ServicePath := Get(h, ServicePath), ServiceMethod := Get(h, ServiceMethod)] + h
  }

  /** The message as its receiver sees it. */
  function Received(m: MessageValue, ks: seq<Str>, before: map<Str, Str>): MessageValue
    requires forall k :: k in ks ==> k in m.header
  {
    MessageValue(m.bom, m.path, before + Complete(m.header), PutBody(m, PutPairs(ks, m.header)), m.payload)
  }

  /** A message that fits its 32-bit length field and the limit. */
  ghost predicate Sendable(m: MessageValue, ks: seq<Str>, max: nat) {
    && m.bom[0] == MAGIC && KeyOrder(ks, m.header)
    && var n := |PutBody(m, PutPairs(ks, m.header))|; n < U32 && (max > 0 ==> n <= max)
  }

  lemma ServiceKeysDiffer()
    ensures ServicePath != ServiceMethod
  {
    assert |ServicePath| == 11 && |ServiceMethod| == 13;
  }

  /** Every key and value fits into the metadata. */
  lemma {:induction false} PairsBound(ks: seq<Str>, m: map<Str, Str>, k: Str)
    requires (forall x :: x in ks ==> x in m) && k in ks
    ensures |k| + |m[k]| <= |PutPairs(ks, m)|
  {
    hide PutField;
    if k != ks[0] { PairsBound(ks[1..], m, k); }
  }

  lemma SendableFits(m: MessageValue, ks: seq<Str>, max: nat)
    requires Sendable(m, ks, max)
    ensures ShortStrings(m.header) && |m.path| < U32 && |m.payload| < U32 && |PutPairs(ks, m.header)| < U32
    ensures |Get(m.header, ServicePath)| < U32 && |Get(m.header, ServiceMethod)| < U32
  {
    hide PutField, PutPairs;
    forall k | k in m.header ensures |k| < U32 && |m.header[k]| < U32 { PairsBound(ks, m.header, k); }
  }

  /** A body as the grammar has it: five fields and ignored bytes. */
  datatype Parts = Parts(path: Str, sp: Str, sm: Str, meta: Str, payload: Str, tail: seq<byte>)

  function Joined(p: Parts): seq<byte> {
    PutField(p.path) + (PutField(p.sp) + (PutField(p.sm) + (PutField(p.meta) + (PutField(p.payload) + p.tail))))
  }

  predicate WellFormed(p: Parts) {
    && |p.path| < U32 && |p.sp| < U32 && |p.sm| < U32 && |p.meta| < U32 && |p.payload| < U32
    && TakePairs(p.meta, map[]).Some?
  }

  /** The message after a well-formed body. */
  function Filled(m: MessageValue, p: Parts): MessageValue
    requires WellFormed(p)
  {
    m.(path := p.path, payload := p.payload,
       header := m.header[ServicePath := p.sp][ServiceMethod := p.sm] + TakePairs(p.meta, map[]).value)
  }

  lemma WellFormedDecodes(m: MessageValue, p: Parts)
    requires WellFormed(p)
    ensures TakeBody(m, Joined(p)) == (Filled(m, p), Done)
  {
    hide PutField, TakeField, TakePairs;
    var d5 := PutField(p.payload) + p.tail;
    var d4 := PutField(p.meta) + d5;
    var d3 := PutField(p.sm) + d4;
    FieldRoundTrip(p.path, PutField(p.sp) + d3);
    FieldRoundTrip(p.sp, d3);
    FieldRoundTrip(p.sm, d4);
    FieldRoundTrip(p.meta, d5);
    FieldRoundTrip(p.payload, p.tail);
  }

  lemma CompleteMerges(before: map<Str, Str>, h: map<Str, Str>)
    ensures before[ServicePath := Get(h, ServicePath)][ServiceMethod := Get(h, ServiceMethod)] + h ==
            before + Complete(h)
  {
    ServiceKeysDiffer();
    hide ServicePath, ServiceMethod, Get;
  }

  lemma BodyRoundTrip(m: MessageValue, into: MessageValue, ks: seq<Str>, max: nat)
    requires Sendable(m, ks, max)
    ensures TakeBody(into, PutBody(m, PutPairs(ks, m.header))) ==
            (into.(path := m.path, header := into.header + Complete(m.header), payload := m.payload), Done)
  {
    SendableFits(m, ks, max);
    CompleteMerges(into.header, m.header);
    MetaRoundTrip(ks, m.header);
    hide PutField, PutPairs, TakePairs, TakeBody, Complete, ServicePath, ServiceMethod, Get;
    var sp, sm := Get(m.header, ServicePath), Get(m.header, ServiceMethod);
    var p := Parts(m.path, sp, sm, PutPairs(ks, m.header), m.payload, []);
    assert PutField(m.payload) + [] == PutField(m.payload);
    WellFormedDecodes(into, p);
  }

  /** A sent message is received with the same header bytes, path, payload and metadata, whatever the order of its keys,
      and exactly its bytes are consumed. */
  lemma MessageRoundTrip(m: MessageValue, into: MessageValue, ks: seq<Str>, rest: seq<byte>, max: nat)
    requires Sendable(m, ks, max)
    ensures DecodeMessage(into, EncodeMessage(m, ks) + rest, max) == (Received(m, ks, into.header), Done, rest)
  {
    var body := PutBody(m, PutPairs(ks, m.header));
    BodyRoundTrip(m, into.(bom := m.bom, body := body), ks, max);
    hide PutBody, PutPairs, TakeBody;
    FramedDecodes(m.bom, into, body, rest, max);
  }

  /** The round trip holds exactly for messages with the magic number whose body fits the length field and the limit. */
  lemma RoundTripExactly(m: MessageValue, into: MessageValue, ks: seq<Str>, rest: seq<byte>, max: nat)
    requires KeyOrder(ks, m.header)
    ensures DecodeMessage(into, EncodeMessage(m, ks) + rest, max) == (Received(m, ks, into.header), Done, rest)
            <==> Sendable(m, ks, max)
  {
    hide PutBody, PutPairs, DecodeMessage, EncodeMessage, Joined, WellFormed;
    if Sendable(m, ks, max) { MessageRoundTrip(m, into, ks, rest, max); }
    DecodeExact(into, EncodeMessage(m, ks) + rest, max);
  }

  lemma FramedDecodes(bom: Bom, into: MessageValue, body: seq<byte>, rest: seq<byte>, max: nat)
    requires bom[0] == MAGIC && |body| < U32 && (max > 0 ==> |body| <= max)
    ensures var (m, status) := TakeBody(into.(bom := bom, body := body), body);
            DecodeMessage(into, Framed(bom, body) + rest, max) == (m, status, rest)
  {
    LengthBack(|body|);
    hide PutLength, GetBE, TakeBody;
    var input := Framed(bom, body) + rest;
    var r := PutLength(|body|) + body + rest;
    assert input[..12] == bom && input[12..] == r && input[0] == bom[0];
    assert r[..4] == PutLength(|body|) && r[4..4 + |body|] == body && r[4 + |body|..] == rest;
  }

  // ---- streams ----

  function Fresh(): MessageValue { MessageValue([MAGIC, 0, 0, 0, 0, 0, 0, 0, 0, 0, 0, 0], [], map[], [], []) }

  /** A new message and one that is reset say nothing in their headers but the magic number, and carry nothing. */
  lemma ClearedFields(m: MessageValue)
    ensures FieldsOf(Fresh().bom) == Fields(0x08, 0, 0, 0, false, false, 0, 0, 0, 0)
    ensures var r := ResetMessage(m);
            && FieldsOf(r.bom) == Fields(m.bom[0], 0, 0, 0, false, false, 0, 0, 0, 0)
            && r.path == m.path && r.header == map[] && r.body == [] && r.payload == []
  {
    ZeroFields(Fresh().bom);
    ZeroFields(ResetMessage(m).bom);
  }

  lemma ZeroFields(b: Bom)
    requires forall i :: 1 <= i < 12 ==> b[i] == 0
    ensures FieldsOf(b) == Fields(b[0], 0, 0, 0, false, false, 0, 0, 0, 0)
  {
    ZeroNumber(b[4..]);
    hide GetBE;
  }

  lemma {:induction false} ZeroNumber(b: seq<byte>)
    requires forall i :: 0 <= i < |b| ==> b[i] == 0
    ensures GetBE(b) == 0
  {
    if b != [] { ZeroNumber(b[..|b| - 1]); }
  }

  /** `Reset`: header bytes and contents are cleared, the path stays. */
  function ResetMessage(m: MessageValue): MessageValue {
    MessageValue([m.bom[0], 0, 0, 0, 0, 0, 0, 0, 0, 0, 0, 0], m.path, map[], [], [])
  }

  /** Messages read one after the other into the same message, reset before each, until the first error. */
  function ReadAll(m: MessageValue, input: seq<byte>, max: nat): seq<MessageValue>
    decreases |input|
  {
    var (m', status, rest) := DecodeMessage(ResetMessage(m), input, max);
    if status.Done? then [m'] + ReadAll(m', rest, max) else []
  }

  ghost predicate Ordered(ms: seq<MessageValue>, orders: seq<seq<Str>>)
    requires |ms| == |orders|
  {
    forall i, k :: 0 <= i < |ms| && k in orders[i] ==> k in ms[i].header
  }

  ghost function EncodeStream(ms: seq<MessageValue>, orders: seq<seq<Str>>): seq<byte>
    requires |ms| == |orders| && Ordered(ms, orders)
  {
    if ms == [] then [] else EncodeMessage(ms[0], orders[0]) + EncodeStream(ms[1..], orders[1..])
  }

  ghost function ReceivedAll(ms: seq<MessageValue>, orders: seq<seq<Str>>): (r: seq<MessageValue>)
    requires |ms| == |orders| && Ordered(ms, orders)
    ensures |r| == |ms| && forall i :: 0 <= i < |ms| ==> r[i] == Received(ms[i], orders[i], map[])
  {
    if ms == [] then [] else [Received(ms[0], orders[0], map[])] + ReceivedAll(ms[1..], orders[1..])
  }

  /** A concatenation of messages reads back as the same messages. */
  lemma {:induction false} StreamOfMessages(ms: seq<MessageValue>, orders: seq<seq<Str>>, m: MessageValue, max: nat)
    requires |ms| == |orders| && forall i :: 0 <= i < |ms| ==> Sendable(ms[i], orders[i], max)
    ensures Ordered(ms, orders)
    ensures ReadAll(m, EncodeStream(ms, orders), max) == ReceivedAll(ms, orders)
    decreases |ms|
  {
    hide EncodeMessage, DecodeMessage, Received, PutBody, PutPairs;
    if ms == [] {
      EmptyInput(ResetMessage(m), max);
    } else {
      MessageRoundTrip(ms[0], ResetMessage(m), orders[0], EncodeStream(ms[1..], orders[1..]), max);
      StreamOfMessages(ms[1..], orders[1..], Received(ms[0], orders[0], map[]), max);
    }
  }

  lemma EmptyInput(m: MessageValue, max: nat)
    ensures DecodeMessage(m, [], max) == (m, EndOfInput, [])
  {
  }

  // ---- arbitrary bytes ----

  /** On arbitrary bytes the fields read are consecutive slices of the body, and nothing else is accepted. */
  lemma BodyExact(m: MessageValue, data: seq<byte>)
    ensures var (m', status) := TakeBody(m, data);
            && (status.Done? <==> exists p :: WellFormed(p) && data == Joined(p))
            && (status.Done? ==> exists p :: WellFormed(p) && data == Joined(p) && m' == Filled(m, p))
  {
    if exists p :: WellFormed(p) && data == Joined(p) {
      var p :| WellFormed(p) && data == Joined(p);
      WellFormedDecodes(m, p);
    }
    if TakeBody(m, data).1.Done? {
      var p := PartsOf(m, data);
    }
  }

  lemma PartsOf(m: MessageValue, data: seq<byte>) returns (p: Parts)
    requires TakeBody(m, data).1.Done?
    ensures WellFormed(p) && data == Joined(p) && TakeBody(m, data).0 == Filled(m, p)
  {
    hide PutField, TakeField, TakePairs;
    TakeFieldExact(data);
    var (path, d1) := TakeField(data).value;
    TakeFieldExact(d1);
    var (sp, d2) := TakeField(d1).value;
    TakeFieldExact(d2);
    var (sm, d3) := TakeField(d2).value;
    TakeFieldExact(d3);
    var (meta, d4) := TakeField(d3).value;
    TakeFieldExact(d4);
    var (payload, tail) := TakeField(d4).value;
    p := Parts(path, sp, sm, meta, payload, tail);
  }

  /** A successful decode consumed one whole frame, within the limit, whose body is as the grammar has it. */
  lemma DecodeExact(m: MessageValue, input: seq<byte>, max: nat)
    ensures var (m', status, rest) := DecodeMessage(m, input, max);
            status.Done? ==>
              && m'.bom[0] == MAGIC && input == Framed(m'.bom, m'.body) + rest
              && |m'.body| < U32 && (max > 0 ==> |m'.body| <= max)
              && exists p :: WellFormed(p) && m'.body == Joined(p) &&
                             m' == Filled(m.(bom := m'.bom, body := m'.body), p)
  {
    hide TakeBody, Joined, WellFormed, PutLength, GetBE, Framed;
    if DecodeMessage(m, input, max).1.Done? {
      var r := input[12..];
      var l := GetBE(r[..4]);
      FrameOf(input, l);
      var p := PartsOf(m.(bom := input[..12], body := r[4..4 + l]), r[4..4 + l]);
    }
  }

  lemma FrameOf(input: seq<byte>, l: nat)
    requires |input| >= 16 && l == GetBE(input[12..][..4]) && |input[12..]| >= 4 + l
    ensures var r := input[12..]; l < U32 && input == Framed(input[..12], r[4..4 + l]) + r[4 + l..]
  {
    PowersOf256();
    var r := input[12..];
    LengthBack(l);
    BytesOfNumber(PutLength(l), r[..4]);
    hide PutLength, GetBE;
    assert r == r[..4] + r[4..4 + l] + r[4 + l..];
    assert input == input[..12] + r;
  }
}
