/** The mutable message and the reader it decodes from. */
module RpcObject {
  import opened Text
  import opened Bytes
  import opened RpcHeader
  import opened RpcMessage
  import opened RpcStream

  class Reader {
    var input: seq<byte>

    constructor (input: seq<byte>)
      ensures this.input == input
    {
      this.input := input;
    }

    /** `io.ReadFull`: what there is, when it is less than asked for. */
    method ReadFull(n: nat) returns (ok: bool, b: seq<byte>)
      modifies this
      ensures ok == (n <= |old(input)|)
      ensures b == old(input)[..if ok then n else |old(input)|] && input == old(input)[|b|..]
    {
      ok := n <= |input|;
      var k := if ok then n else |input|;
      b, input := input[..k], input[k..];
    }
  }

  class Message {
    var bom: Header
    var path: Str
    var header: map<Str, Str>
    var body: Str
    var payload: Str

    ghost predicate Valid()
      reads this, bom
    {
      bom.Valid()
    }

    ghost function Value(): (v: MessageValue)
      requires Valid()
      reads this, bom, bom.bytes
    {
      MessageValue(bom.Value(), path, header, body, payload)
    }

    constructor ()
      ensures Valid() && fresh(bom) && fresh(bom.bytes)
      ensures FieldsOf(Value().bom) == FieldsOf(Fresh().bom) && Value() == Fresh().(bom := Value().bom)
    {
      bom := new Header();
      path, header, body, payload := [], map[], [], [];
      new;
      ZerosAreZero([0, 0, 0, 0, 0, 0, 0, 0]);
      hide GetBE;
      var z: seq<byte> := [MAGIC, 0, 0, 0, 0, 0, 0, 0, 0, 0, 0, 0];
      assert z[4..] == [0, 0, 0, 0, 0, 0, 0, 0];
    }

    method Encode() returns (b: seq<byte>, ghost ks: seq<Str>)
      requires Valid()
      ensures KeyOrder(ks, header) && b == EncodeMessage(Value(), ks)
      ensures exists order :: KeyOrder(order, header) && b == EncodeMessage(Value(), order)
    {
      var meta;
      meta, ks := EncodeMetadata(header);
      var sp, sm := Get(header, ServicePath), Get(header, ServiceMethod);
      b := Layout(bom.bytes[..], path, sp, sm, meta, payload);
      Assembled(Value(), ks, meta, sp, sm);
    }

    /** Decoding writes into the message as it goes, so an error leaves it half changed, as `DecodeMessage` says. */
    method Decode(r: Reader, max: nat) returns (status: Status)
      requires Valid()
      modifies this, bom.bytes, r
      ensures Valid() && bom == old(bom) && (Value(), status, r.input) == DecodeMessage(old(Value()), old(r.input), max)
    {
      hide DecodeLength;
      ghost var input := r.input;
      var ok, first := r.ReadFull(1);
      if !ok { return EndOfInput; }
      CopyInto(bom.bytes, 0, first);
      assert bom.bytes[..] == [input[0]] + old(bom.bytes[..])[1..];
      if bom.bytes[0] != MAGIC { return WrongMagic(bom.bytes[0]); }
      var others;
      ok, others := r.ReadFull(11);
      CopyInto(bom.bytes, 1, others);
      if !ok {
        assert first + others == input && bom.bytes[..] == input + old(bom.bytes[..])[|input|..];
        return EndOfInput;
      }
      assert bom.bytes[..] == input[..12] && r.input == input[12..];
      status := DecodeFrame(r, max);
    }

    method DecodeFrame(r: Reader, max: nat) returns (status: Status)
      requires Valid()
      modifies this, r
      ensures Valid() && bom == old(bom)
      ensures (Value(), status, r.input) == DecodeLength(old(Value()), old(r.input), max)
    {
      hide TakeBody, GetBE;
      ghost var input := r.input;
      var ok, b := r.ReadFull(4);
      if !ok { return EndOfInput; }
      var l := GetBE(b);
      if max > 0 && l > max { return TooLong; }
      ok, b := r.ReadFull(l);
      if !ok { return EndOfInput; }
      assert b == input[4..4 + l] && r.input == input[4 + l..];
      body := b;
      status := DecodeBody(b);
    }

    method DecodeBody(data: seq<byte>) returns (status: Status)
      requires Valid()
      modifies this
      ensures Valid() && bom == old(bom) && (Value(), status) == TakeBody(old(Value()), data)
    {
      hide TakeField, ServicePath, ServiceMethod;
      assert data[0..] == data;
      var f := ReadField(data, 0);
      if f.None? { return Malformed; }
      path := f.value.0;
      f := ReadField(data, f.value.1);
      if f.None? { return Malformed; }
      header := header[ServicePath := f.value.0];
      f := ReadField(data, f.value.1);
      if f.None? { return Malformed; }
      header := header[ServiceMethod := f.value.0];
      status := DecodeRest(data, f.value.1);
    }

    method DecodeRest(data: seq<byte>, n: nat) returns (status: Status)
      requires Valid() && n <= |data|
      modifies this
      ensures Valid() && bom == old(bom) && (Value(), status) == TakeRest(old(Value()), data[n..])
    {
      hide TakeField;
      var f := ReadField(data, n);
      if f.None? { return Malformed; }
      if |f.value.0| > 0 {
        PowersOf256();
        var meta := f.value.0;
        assert meta[..|meta|] == meta;
        var pairs := DecodeMetadata(|meta| as uint32, meta);
        if pairs.None? { return MetaMissing; }
        header := header + pairs.value;
      } else {
        assert TakePairs([], map[]) == Some(map[]) && header + map[] == header;
      }
      f := ReadField(data, f.value.1);
      if f.None? { return Malformed; }
      payload := f.value.0;
      return Done;
    }

    /** Header bytes, metadata, body and payload are cleared; the path and the magic number stay. */
    method Reset()
      requires Valid()
      modifies this, bom.bytes
      ensures Valid() && bom == old(bom) && Value() == ResetMessage(old(Value()))
    {
      bom.Reset();
      header := map[];
      payload := payload[..0];
      body := body[..0];
    }

    /** The clone gets its own copy of the header bytes and the two service entries, and keeps everything else. */
    method CloneTo(msg: Message)
      requires Valid() && msg.Valid()
      modifies msg
      ensures msg.Valid() && fresh(msg.bom) && fresh(msg.bom.bytes)
      ensures msg.Value() == old(msg.Value()).(bom := old(Value()).bom,
                header := old(msg.header)[ServicePath := Get(old(header), ServicePath)]
                                         [ServiceMethod := Get(old(header), ServiceMethod)])
    {
      hide ServicePath, ServiceMethod;
      var sp, sm := Get(header, ServicePath), Get(header, ServiceMethod);
      var copied := new Header();
      CopyInto(copied.bytes, 0, bom.bytes[..]);
      assert copied.bytes[..] == bom.bytes[..];
      msg.bom := copied;
      msg.header := msg.header[ServicePath := sp];
      msg.header := msg.header[ServiceMethod := sm];
    }
  }

  /** The field at offset `n` and the offset behind it. */
  method ReadField(data: seq<byte>, n: nat) returns (r: Option<(Str, nat)>)
    requires n <= |data|
    ensures r.Some? ==> n < r.value.1 <= |data| && |r.value.0| < U32
    ensures TakeField(data[n..]) == if r.None? then None else Some((r.value.0, data[r.value.1..]))
  {
    PowersOf256();
    hide GetBE;
    if 4 > |data| - n { return None; }
    var fl := GetBE(data[n..n + 4]);
    assert data[n..][..4] == data[n..n + 4];
    if fl > |data| - (n + 4) { return None; }
    assert data[n..|data|] == data[n..] && data[n + 4 + fl..|data|] == data[n + 4 + fl..];
    PartAt(data, n, |data|, fl);
    r := Some((data[n + 4..n + 4 + fl], n + 4 + fl));
  }

  /** The sizes are added up first, then every field is copied to its place in one buffer. */
  method Layout(bom: Bom, path: Str, sp: Str, sm: Str, meta: Str, payload: Str) returns (b: seq<byte>)
    ensures var total := (4 + |path|) + (4 + |sp|) + (4 + |sm|) + (4 + |meta|) + (4 + |payload|);
            b == bom + PutLength(total) + PutField(path) + PutField(sp) + PutField(sm) + PutField(meta) +
              PutField(payload)
  {
    hide PutField, PutLength;
    var total := (4 + |path|) + (4 + |sp|) + (4 + |sm|) + (4 + |meta|) + (4 + |payload|);
    var metaStart := 12 + 4 + (4 + |path|) + (4 + |sp|) + (4 + |sm|);
    var payloadStart := metaStart + (4 + |meta|);
    var data := new byte[12 + 4 + total](_ => 0);
    CopyInto(data, 0, bom);
    assert data[..12] == bom;
    CopyInto(data, 12, PutLength(total));
    assert data[..16] == bom + PutLength(total);
    ghost var front := bom + PutLength(total);
    PutFieldAt(data, 16, path, front);
    front := front + PutField(path);
    var bgn := 20 + |path|;
    PutFieldAt(data, bgn, sp, front);
    front := front + PutField(sp);
    bgn := bgn + 4 + |sp|;
    PutFieldAt(data, bgn, sm, front);
    front := front + PutField(sm);
    PutFieldAt(data, metaStart, meta, front);
    front := front + PutField(meta);
    PutFieldAt(data, payloadStart, payload, front);
    assert data[..] == data[..payloadStart + 4 + |payload|];
    b := data[..];
  }

  /** Fields placed from left to right are the encoded message. */
  lemma Assembled(m: MessageValue, ks: seq<Str>, meta: Str, sp: Str, sm: Str)
    requires KeyOrder(ks, m.header) && meta == PutPairs(ks, m.header)
    requires sp == Get(m.header, ServicePath) && sm == Get(m.header, ServiceMethod)
    ensures var total := (4 + |m.path|) + (4 + |sp|) + (4 + |sm|) + (4 + |meta|) + (4 + |m.payload|);
            m.bom + PutLength(total) + PutField(m.path) + PutField(sp) + PutField(sm) + PutField(meta) +
              PutField(m.payload) ==
            EncodeMessage(m, ks)
  {
    hide PutField, PutLength, PutPairs, Get;
    var body := PutBody(m, meta);
    var front := m.bom + PutLength(|body|);
    assert front + PutField(m.path) + PutField(sp) + PutField(sm) + PutField(meta) + PutField(m.payload) ==
           front + body;
  }

  /** A length and the bytes it counts, placed in a buffer behind what is there. */
  method PutFieldAt(data: array<byte>, at: nat, s: Str, ghost front: seq<byte>)
    requires at + 4 + |s| <= data.Length && data[..at] == front
    modifies data
    ensures data[..at + 4 + |s|] == front + PutField(s)
  {
    CopyInto(data, at, PutLength(|s|));
    CopyInto(data, at + 4, s);
  }
}
