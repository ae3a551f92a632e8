/** The frame codec of RFC 6455 (sections 5.2 and 5.3): headers, the three length forms and masking. */
module WsFrames {
  import opened Bytes

  const OpContinuation: byte := 0x0
  const OpText: byte := 0x1
  const OpBinary: byte := 0x2
  const OpClose: byte := 0x8
  const OpPing: byte := 0x9
  const OpPong: byte := 0xA

  const MAX_CONTROL_PAYLOAD := 125
  const MAX_INT64: nat := 0x7FFF_FFFF_FFFF_FFFF

  type MaskKey = k: seq<byte> | |k| == 4 witness [0, 0, 0, 0]

  datatype Frame = Frame(fin: bool, opcode: byte, payload: seq<byte>)

  predicate LegalOpcode(op: byte) {
    op == OpContinuation || op == OpText || op == OpBinary || op == OpClose || op == OpPing || op == OpPong
  }

  predicate IsControl(op: byte) { op & 0x08 != 0 }

  /** A frame a peer with this read limit accepts. */
  predicate Acceptable(f: Frame, limit: nat) {
    && LegalOpcode(f.opcode) && |f.payload| <= limit && |f.payload| <= MAX_INT64
    && (IsControl(f.opcode) ==> f.fin && |f.payload| <= MAX_CONTROL_PAYLOAD)
  }

  // ---- masking ----

  /** `b` masked as the part of a payload that starts at offset `pos`. */
  function Mask(key: MaskKey, pos: nat, b: seq<byte>): (r: seq<byte>)
    ensures |r| == |b| && forall i :: 0 <= i < |b| ==> r[i] == b[i] ^ key[(pos + i) % 4]
  {
    seq(|b|, i requires 0 <= i < |b| => b[i] ^ key[(pos + i) % 4])
  }

  /** Masking twice with one key restores the payload. */
  lemma MaskInvolution(key: MaskKey, pos: nat, b: seq<byte>)
    ensures Mask(key, pos, Mask(key, pos, b)) == b
  {
    var m := Mask(key, pos, b);
    assert forall i :: 0 <= i < |b| ==> (b[i] ^ key[(pos + i) % 4]) ^ key[(pos + i) % 4] == b[i];
  }

  /** Masking chunk by chunk, each from the phase the previous one returned, masks the whole payload. */
  lemma MaskChunks(key: MaskKey, pos: nat, a: seq<byte>, b: seq<byte>)
    ensures Mask(key, pos, a + b) == Mask(key, pos, a) + Mask(key, (pos + |a|) % 4, b)
  {
    var whole, parts := Mask(key, pos, a + b), Mask(key, pos, a) + Mask(key, (pos + |a|) % 4, b);
    forall i | 0 <= i < |a + b| ensures whole[i] == parts[i] {
      if i >= |a| { PhaseShift(pos + |a|, i - |a|); }
    }
  }

  lemma PhaseShift(p: nat, i: nat)
    ensures (p + i) % 4 == (p % 4 + i) % 4
  {
    assert p == 4 * (p / 4) + p % 4;
  }

  /** `wsMaskBytes`: masks in place and returns the phase for the next chunk. */
  method MaskBytes(key: MaskKey, pos: nat, b: array<byte>) returns (phase: nat)
    modifies b
    ensures b[..] == Mask(key, pos, old(b[..])) && phase == (pos + b.Length) % 4
  {
    var p := pos;
    for i := 0 to b.Length
      invariant p == pos + i
      invariant forall k :: 0 <= k < i ==> b[k] == old(b[k]) ^ key[(pos + k) % 4]
      invariant forall k :: i <= k < b.Length ==> b[k] == old(b[k])
    {
      b[i] := b[i] ^ key[p % 4];
      p := p + 1;
    }
    phase := p % 4;
  }

  // ---- writing ----

  function FirstByte(op: byte, fin: bool): byte { if fin then op | 0x80 else op }

  function SecondByte(code: byte, masked: bool): byte { if masked then code | 0x80 else code }

  predicate HasRsv(h0: byte) { h0 & 0x70 != 0 }

  predicate HasFin(h0: byte) { h0 & 0x80 != 0 }

  function OpcodeOf(h0: byte): (op: byte)
    ensures op < 16
  {
    h0 & 0x0F
  }

  predicate HasMask(h1: byte) { h1 & 0x80 != 0 }

  function CodeOf(h1: byte): (code: byte)
    ensures OfByte(code) < 0x80
  {
    h1 & 0x7F
  }

  /** The seven-bit length and the extended length after it. */
  function LengthCode(n: nat): (r: (byte, seq<byte>))
    requires n <= MAX_INT64
  {
    PowersOf256();
    if n < 126 then (ToByte(n), []) else if n <= 0xFFFF then (126, PutBE(n, 2)) else (127, PutBE(n, 8))
  }

  /** `writeFrameLocked`: clients mask what they send, servers do not. */
  function EncodeFrame(isServer: bool, f: Frame, key: MaskKey): (b: seq<byte>)
    requires |f.payload| <= MAX_INT64
  {
    var (code, ext) := LengthCode(|f.payload|);
    [FirstByte(f.opcode, f.fin), SecondByte(code, !isServer)] + ext + Body(isServer, f, key)
  }

  function Body(isServer: bool, f: Frame, key: MaskKey): seq<byte> {
    if isServer then f.payload else key + Mask(key, 0, f.payload)
  }

  // ---- reading ----

  /** `Short`: the stream ended inside the frame. `Bad`: a protocol error. `TooBig`: the announced length exceeds the
      read limit. The last component is what remains unread. */
  datatype Decoded =
    | Short | Bad(reason: string, rest: seq<byte>) | TooBig(rest: seq<byte>) | Got(frame: Frame, rest: seq<byte>)

  function HexDigit(op: byte): char
    requires op < 16
  {
    "0123456789ABCDEF"[op as nat]
  }

  function ExtensionSize(len7: byte): nat {
    if len7 == 126 then 2 else if len7 == 127 then 8 else 0
  }

  function AnnouncedLength(h1: byte, ext: seq<byte>): nat {
    if ext == [] then OfByte(CodeOf(h1)) else GetBE(ext)
  }

  function DecodePayload(f: Frame, masked: bool, n: nat, r: seq<byte>): (d: Decoded)
    ensures d.Got? ==> |d.rest| <= |r|
  {
    if masked then
      if |r| < 4 || |r| < 4 + n then Short else Got(f.(payload := Mask(r[..4], 0, r[4..4 + n])), r[4 + n..])
    else if |r| < n then Short else Got(f.(payload := r[..n]), r[n..])
  }

  /** The checks between the length and the payload. */
  function DecodeChecked(isServer: bool, limit: nat, f: Frame, masked: bool, n: nat, r: seq<byte>): (d: Decoded)
    ensures d.Got? ==> |d.rest| <= |r|
  {
    if IsControl(f.opcode) && !f.fin then Bad("fragmented control frame", r)
    else if IsControl(f.opcode) && n > MAX_CONTROL_PAYLOAD then Bad("control frame payload too large", r)
    else if isServer && !masked then Bad("unmasked frame from client", r)
    else if !isServer && masked then Bad("masked frame from server", r)
    else if n > limit then TooBig(r)
    else DecodePayload(f, masked, n, r)
  }

  function DecodeLength(isServer: bool, limit: nat, f: Frame, h1: byte, r: seq<byte>): (d: Decoded)
    ensures d.Got? ==> |d.rest| <= |r|
  {
    var k := ExtensionSize(CodeOf(h1));
    if |r| < k then Short
    else
      var n := AnnouncedLength(h1, r[..k]);
      if n > MAX_INT64 then Bad("payload length MSB set", r[k..])
      else DecodeChecked(isServer, limit, f, HasMask(h1), n, r[k..])
  }

  /** `readFrame`. */
  function DecodeFrame(isServer: bool, limit: nat, input: seq<byte>): (d: Decoded)
    ensures d.Got? ==> |d.rest| < |input|
  {
    if |input| < 2 then Short
    else
      var (h0, h1, r) := (input[0], input[1], input[2..]);
      var op := OpcodeOf(h0);
      if HasRsv(h0) then Bad("reserved bits set", r)
      else if !LegalOpcode(op) then Bad("reserved opcode 0x" + [HexDigit(op)], r)
      else DecodeLength(isServer, limit, Frame(HasFin(h0), op, []), h1, r)
  }

  // ---- the layout on the wire ----

  lemma HighBit(b: byte)
    requires OfByte(b) < 0x80
    ensures OfByte(b | 0x80) == OfByte(b) + 0x80
  {
    assert b | 0x80 == b + 0x80;
  }

  /** Section 5.2, byte by byte: FIN and the opcode, the mask bit and the length in seven bits, two or eight bytes, the
      key and the payload under it. */
  lemma FrameLayout(isServer: bool, f: Frame, key: MaskKey)
    requires |f.payload| <= MAX_INT64 && OfByte(f.opcode) < 16
    ensures var b, n, bit := EncodeFrame(isServer, f, key), |f.payload|, if isServer then 0 else 128;
            var at := if n < 126 then 2 else if n < 65536 then 4 else 10;
            && |b| == at + n + (if isServer then 0 else 4)
            && OfByte(b[0]) == OfByte(f.opcode) + (if f.fin then 128 else 0)
            && OfByte(b[1]) == bit + (if n < 126 then n else if n < 65536 then 126 else 127)
            && (at > 2 ==> GetBE(b[2..at]) == n)
            && (isServer ==> b[at..] == f.payload)
            && (!isServer ==> b[at..at + 4] == key && forall i :: 0 <= i < n ==>
                  b[at + 4 + i] == f.payload[i] ^ key[i % 4])
  {
    hide *;
    var b, n := EncodeFrame(isServer, f, key), |f.payload|;
    var (code, ext) := LengthCode(n);
    FrameParts(isServer, f, key);
    LengthLayout(n);
    HeadBytes(f.opcode, f.fin, code, !isServer);
    var body, at := Body(isServer, f, key), 2 + |ext|;
    assert b[2..at] == ext && b[at..] == body;
    if !isServer {
      assert b[at..at + 4] == body[..4] && forall j :: 0 <= j < |body| ==> body[j] == b[at + j];
      forall i | 0 <= i < n ensures b[at + 4 + i] == f.payload[i] ^ key[i % 4] {
        assert body[4 + i] == b[at + (4 + i)];
      }
    }
  }

  lemma FrameParts(isServer: bool, f: Frame, key: MaskKey)
    requires |f.payload| <= MAX_INT64
    ensures var (code, ext) := LengthCode(|f.payload|);
            var body := Body(isServer, f, key);
            && EncodeFrame(isServer, f, key) ==
               [FirstByte(f.opcode, f.fin), SecondByte(code, !isServer)] + ext + body
            && (if isServer then body == f.payload
                else |body| == 4 + |f.payload| && body[..4] == key
                     && forall i :: 0 <= i < |f.payload| ==> body[4 + i] == f.payload[i] ^ key[i % 4])
  {
    hide LengthCode;
  }

  lemma HeadBytes(op: byte, fin: bool, code: byte, masked: bool)
    requires OfByte(op) < 0x80 && OfByte(code) < 0x80
    ensures OfByte(FirstByte(op, fin)) == OfByte(op) + (if fin then 128 else 0)
    ensures OfByte(SecondByte(code, masked)) == OfByte(code) + (if masked then 128 else 0)
  {
    HighBit(op);
    HighBit(code);
    hide OfByte;
  }

  /** A frame with one of the three reserved bits is refused, and so is one of a reserved opcode. */
  lemma ReservedRefused(isServer: bool, limit: nat, input: seq<byte>)
    requires |input| >= 2
    ensures var h := OfByte(input[0]);
            && (h / 16 % 8 != 0 ==> DecodeFrame(isServer, limit, input) == Bad("reserved bits set", input[2..]))
            && (h / 16 % 8 == 0 && h % 16 !in {0, 1, 2, 8, 9, 10} ==>
                  DecodeFrame(isServer, limit, input) ==
                  Bad("reserved opcode 0x" + ["0123456789ABCDEF"[h % 16]], input[2..]))
  {
    ReservedBits(input[0]);
    OpcodeNumber(input[0]);
    hide OfByte, HasRsv, OpcodeOf, DecodeLength;
  }

  lemma ReservedBits(h: byte)
    ensures HasRsv(h) <==> OfByte(h) / 16 % 8 != 0
  {
    assert HasRsv(h) <==> h / 16 % 8 != 0;
  }

  lemma OpcodeNumber(h: byte)
    ensures OfByte(OpcodeOf(h)) == OfByte(h) % 16
    ensures LegalOpcode(OpcodeOf(h)) <==> OfByte(h) % 16 in {0, 1, 2, 8, 9, 10}
    ensures HexDigit(OpcodeOf(h)) == "0123456789ABCDEF"[OfByte(h) % 16]
  {
    LowHalf(h);
    LegalNumber(OpcodeOf(h));
    HexNumber(OpcodeOf(h));
    hide OfByte, OpcodeOf, LegalOpcode, HexDigit;
  }

  lemma LowHalf(h: byte)
    ensures OfByte(OpcodeOf(h)) == OfByte(h) % 16
  {
    assert OpcodeOf(h) == h % 16;
  }

  lemma LegalNumber(op: byte)
    ensures LegalOpcode(op) <==> OfByte(op) in {0, 1, 2, 8, 9, 10}
  {
  }

  lemma HexNumber(op: byte)
    requires op < 16
    ensures OfByte(op) < 16 && HexDigit(op) == "0123456789ABCDEF"[OfByte(op)]
  {
  }

  lemma LengthLayout(n: nat)
    requires n <= MAX_INT64
    ensures var (code, ext) := LengthCode(n);
            && OfByte(code) == (if n < 126 then n else if n < 65536 then 126 else 127) < 0x80
            && |ext| == (if n < 126 then 0 else if n < 65536 then 2 else 8) && (ext != [] ==> GetBE(ext) == n)
  {
    LengthRoundTrip(n);
    LongCodes();
    hide GetBE, PutBE, Pow256, ToByte, OfByte;
    if n < 126 { ShortCode(n); }
  }

  lemma LongCodes()
    ensures OfByte(126) == 126 && OfByte(127) == 127
  {
  }

  // ---- round trip ----

  lemma FirstByteBits(op: byte, fin: bool)
    requires op < 16
    ensures var h := FirstByte(op, fin); !HasRsv(h) && OpcodeOf(h) == op && (HasFin(h) <==> fin)
  {
  }

  lemma SecondByteBits(code: byte, masked: bool)
    requires code < 0x80
    ensures var h := SecondByte(code, masked); CodeOf(h) == code && (HasMask(h) <==> masked)
  {
  }

  lemma ShortCode(n: nat)
    requires n < 126
    ensures ToByte(n) < 0x80 && ExtensionSize(ToByte(n)) == 0 && OfByte(ToByte(n)) == n
  {
    ByteRoundTrip(n);
  }

  /** The announced length is read back from its code, whichever form it takes. */
  lemma LengthRoundTrip(n: nat)
    requires n <= MAX_INT64
    ensures var (code, ext) := LengthCode(n);
            && code < 0x80 && |ext| == ExtensionSize(code)
            && n == if |ext| == 0 then OfByte(code) else GetBE(ext)
  {
    PowersOf256();
    hide GetBE, PutBE, Pow256, ToByte, OfByte;
    if n < 126 { ShortCode(n); } else if n <= 0xFFFF { GetPut(n, 2); } else { GetPut(n, 8); }
  }

  lemma PayloadRoundTrip(isServer: bool, f: Frame, key: MaskKey, rest: seq<byte>)
    ensures DecodePayload(f.(payload := []), !isServer, |f.payload|,
                          Body(isServer, f, key) + rest) == Got(f, rest)
  {
    if isServer {
      assert (f.payload + rest)[..|f.payload|] == f.payload && (f.payload + rest)[|f.payload|..] == rest;
    } else {
      var masked := Mask(key, 0, f.payload);
      var r := key + masked + rest;
      assert r[..4] == key && r[4..4 + |f.payload|] == masked && r[4 + |f.payload|..] == rest;
      MaskInvolution(key, 0, f.payload);
    }
  }

  /** A written frame is read by the opposite role as the same frame, and exactly its bytes are consumed. */
  lemma FrameRoundTrip(isServer: bool, f: Frame, key: MaskKey, limit: nat, rest: seq<byte>)
    requires Acceptable(f, limit)
    ensures DecodeFrame(!isServer, limit, EncodeFrame(isServer, f, key) + rest) == Got(f, rest)
  {
    assert |f.payload| <= MAX_INT64;
    hide *;
    var (code, ext) := LengthCode(|f.payload|);
    var h0, h1 := FirstByte(f.opcode, f.fin), SecondByte(code, !isServer);
    var body := Body(isServer, f, key) + rest;
    EncodedParts(isServer, f, key, rest);
    HeaderFacts(isServer, f, limit);
    HeaderDecoded(!isServer, limit, h0, h1, ext, body);
    CheckedPasses(!isServer, limit, f, body);
    PayloadRoundTrip(isServer, f, key, rest);
  }

  /** What the two header bytes of an acceptable frame say. */
  lemma HeaderFacts(isServer: bool, f: Frame, limit: nat)
    requires Acceptable(f, limit)
    ensures |f.payload| <= MAX_INT64
    ensures var (code, ext) := LengthCode(|f.payload|);
            var h0, h1 := FirstByte(f.opcode, f.fin), SecondByte(code, !isServer);
            && !HasRsv(h0) && LegalOpcode(OpcodeOf(h0)) && OpcodeOf(h0) == f.opcode && (HasFin(h0) <==> f.fin)
            && (HasMask(h1) <==> !isServer) && |ext| == ExtensionSize(CodeOf(h1))
            && |f.payload| == AnnouncedLength(h1, ext)
  {
    hide LengthCode, GetBE, FirstByte, SecondByte, OpcodeOf, CodeOf, HasRsv, HasFin, HasMask;
    FirstByteBits(f.opcode, f.fin);
    LengthRoundTrip(|f.payload|);
    SecondByteBits(LengthCode(|f.payload|).0, !isServer);
  }

  /** An acceptable frame from the opposite role passes every check before the payload. */
  lemma CheckedPasses(isServer: bool, limit: nat, f: Frame, body: seq<byte>)
    requires Acceptable(f, limit)
    ensures var bare := f.(payload := []);
            DecodeChecked(isServer, limit, bare, isServer, |f.payload|, body) ==
            DecodePayload(bare, isServer, |f.payload|, body)
  {
    hide DecodePayload;
  }

  lemma EncodedParts(isServer: bool, f: Frame, key: MaskKey, rest: seq<byte>)
    requires |f.payload| <= MAX_INT64
    ensures var (code, ext) := LengthCode(|f.payload|);
            EncodeFrame(isServer, f, key) + rest ==
            [FirstByte(f.opcode, f.fin), SecondByte(code, !isServer)] + ext +
            (Body(isServer, f, key) + rest)
  {
    hide LengthCode, FirstByte, SecondByte, Body;
  }

  /** A frame with a clean header is decoded from its parts. */
  lemma HeaderDecoded(isServer: bool, limit: nat, h0: byte, h1: byte, ext: seq<byte>, body: seq<byte>)
    requires !HasRsv(h0) && LegalOpcode(OpcodeOf(h0)) && |ext| == ExtensionSize(CodeOf(h1))
    requires AnnouncedLength(h1, ext) <= MAX_INT64
    ensures DecodeFrame(isServer, limit, [h0, h1] + ext + body) ==
            DecodeChecked(isServer, limit, Frame(HasFin(h0), OpcodeOf(h0), []), HasMask(h1),
                          AnnouncedLength(h1, ext), body)
  {
    hide DecodeChecked, AnnouncedLength, LegalOpcode, OpcodeOf, CodeOf, HasRsv, HasFin, HasMask;
    var wire := [h0, h1] + ext + body;
    assert wire[0] == h0 && wire[1] == h1 && wire[2..] == ext + body;
    assert (ext + body)[..|ext|] == ext && (ext + body)[|ext|..] == body;
  }

  /** A sequence of frames with their keys, as one stream. */
  function EncodeAll(isServer: bool, fs: seq<Frame>, keys: seq<MaskKey>): seq<byte>
    requires |fs| <= |keys| && forall i :: 0 <= i < |fs| ==> |fs[i].payload| <= MAX_INT64
  {
    if fs == [] then [] else EncodeFrame(isServer, fs[0], keys[0]) + EncodeAll(isServer, fs[1..], keys[1..])
  }

  lemma {:induction false} EncodeAllAppend(isServer: bool, a: seq<Frame>, b: seq<Frame>, j: seq<MaskKey>,
                                           k: seq<MaskKey>)
    requires |a| == |j| && |b| <= |k|
    requires forall i :: 0 <= i < |a| ==> |a[i].payload| <= MAX_INT64
    requires forall i :: 0 <= i < |b| ==> |b[i].payload| <= MAX_INT64
    ensures EncodeAll(isServer, a + b, j + k) == EncodeAll(isServer, a, j) + EncodeAll(isServer, b, k)
  {
    hide EncodeFrame;
    if a == [] {
      assert a + b == b && j + k == k;
    } else {
      assert (a + b)[1..] == a[1..] + b && (j + k)[1..] == j[1..] + k;
      EncodeAllAppend(isServer, a[1..], b, j[1..], k);
    }
  }

  /** All frames of a stream, until its end or the first error. */
  function DecodeAll(isServer: bool, limit: nat, input: seq<byte>): seq<Frame>
    decreases |input|
  {
    var d := DecodeFrame(isServer, limit, input);
    if d.Got? then [d.frame] + DecodeAll(isServer, limit, d.rest) else []
  }

  /** A concatenation of frames reads back as the same sequence. */
  lemma {:induction false} StreamRoundTrip(isServer: bool, fs: seq<Frame>, keys: seq<MaskKey>, limit: nat)
    requires |fs| <= |keys|
    requires forall i :: 0 <= i < |fs| ==> |fs[i].payload| <= MAX_INT64 && Acceptable(fs[i], limit)
    ensures DecodeAll(!isServer, limit, EncodeAll(isServer, fs, keys)) == fs
  {
    if fs != [] {
      FrameRoundTrip(isServer, fs[0], keys[0], limit, EncodeAll(isServer, fs[1..], keys[1..]));
      StreamRoundTrip(isServer, fs[1..], keys[1..], limit);
    }
  }
}
