/** The twelve-byte message header: magic number, packed status bytes and the sequence number. */
module RpcHeader {
  import opened Bytes

  const MAGIC: byte := 0x08

  type Bom = b: seq<byte> | |b| == 12 witness [0, 0, 0, 0, 0, 0, 0, 0, 0, 0, 0, 0]

  /** Everything a header says. `spare` is the bit no field uses. */
  datatype Fields = Fields(magic: byte, version: byte, status: byte, messageType: byte, heartbeat: bool, oneway: bool,
                           compress: byte, spare: byte, serialize: byte, sequence: nat)

  // ---- the getters, byte by byte ----

  function VersionOf(b1: byte): byte { (b1 & 0xF0) >> 4 }

  function StatusOf(b1: byte): byte { b1 & 0x0F }

  function TypeOf(b2: byte): byte { (b2 & 0xC0) >> 6 }

  predicate HeartbeatOf(b2: byte) { b2 & 0x20 == 0x20 }

  predicate OnewayOf(b2: byte) { b2 & 0x10 == 0x10 }

  function CompressOf(b2: byte): byte { (b2 & 0x0E) >> 1 }

  function FieldsOf(b: Bom): Fields {
    Fields(b[0], VersionOf(b[1]), StatusOf(b[1]), TypeOf(b[2]), HeartbeatOf(b[2]), OnewayOf(b[2]), CompressOf(b[2]),
           b[2] & 1, b[3], GetBE(b[4..]))
  }

  /** The header in numbers: version and status are the halves of the second byte; the third holds, from the top, two
      bits of message type, heartbeat, one-way, three bits of compression and a spare one; the sequence number comes
      last. */
  lemma HeaderLayout(b: Bom)
    ensures var f, b1, b2 := FieldsOf(b), OfByte(b[1]), OfByte(b[2]);
            && f.magic == b[0] && OfByte(f.version) == b1 / 16 && OfByte(f.status) == b1 % 16
            && OfByte(f.messageType) == b2 / 64 && (f.heartbeat <==> b2 / 32 % 2 == 1)
            && (f.oneway <==> b2 / 16 % 2 == 1) && OfByte(f.compress) == b2 / 2 % 8 && OfByte(f.spare) == b2 % 2
            && f.serialize == b[3] && f.sequence == GetBE(b[4..12])
  {
    Halves(b[1]);
    ThirdByte(b[2]);
    assert b[4..] == b[4..12];
  }

  lemma Halves(b: byte)
    ensures OfByte(VersionOf(b)) == OfByte(b) / 16 && OfByte(StatusOf(b)) == OfByte(b) % 16
  {
  }

  lemma ThirdByte(b: byte)
    ensures OfByte(TypeOf(b)) == OfByte(b) / 64 && (HeartbeatOf(b) <==> OfByte(b) / 32 % 2 == 1)
    ensures OnewayOf(b) <==> OfByte(b) / 16 % 2 == 1
    ensures OfByte(CompressOf(b)) == OfByte(b) / 2 % 8 && OfByte(b & 1) == OfByte(b) % 2
  {
    TypeNumber(b);
    HeartbeatNumber(b);
    OnewayNumber(b);
    CompressNumber(b);
    SpareNumber(b);
    hide OfByte, TypeOf, HeartbeatOf, OnewayOf, CompressOf;
  }

  lemma TypeNumber(b: byte)
    ensures OfByte(TypeOf(b)) == OfByte(b) / 64
  {
    assert TypeOf(b) == b / 64;
  }

  lemma HeartbeatNumber(b: byte)
    ensures HeartbeatOf(b) <==> OfByte(b) / 32 % 2 == 1
  {
    assert HeartbeatOf(b) <==> b / 32 % 2 == 1;
  }

  lemma OnewayNumber(b: byte)
    ensures OnewayOf(b) <==> OfByte(b) / 16 % 2 == 1
  {
    assert OnewayOf(b) <==> b / 16 % 2 == 1;
  }

  lemma CompressNumber(b: byte)
    ensures OfByte(CompressOf(b)) == OfByte(b) / 2 % 8
  {
    var h := b / 2;
    assert CompressOf(b) == h % 8;
    HalfNumber(b);
    EighthNumber(h);
    hide OfByte, CompressOf;
  }

  lemma HalfNumber(b: byte)
    ensures OfByte(b / 2) == OfByte(b) / 2
  {
  }

  lemma EighthNumber(b: byte)
    ensures OfByte(b % 8) == OfByte(b) % 8
  {
  }

  lemma SpareNumber(b: byte)
    ensures OfByte(b & 1) == OfByte(b) % 2
  {
    assert b & 1 == b % 2;
  }

  // ---- the setters ----

  function WithVersion(b1: byte, v: byte): (r: byte)
    ensures VersionOf(r) == v & 0x0F && StatusOf(r) == StatusOf(b1)
  {
    (b1 & 0x0F) | ((v << 4) & 0xF0)
  }

  function WithStatus(b1: byte, s: byte): (r: byte)
    ensures StatusOf(r) == s & 0x0F && VersionOf(r) == VersionOf(b1)
  {
    (b1 & 0xF0) | (s & 0x0F)
  }

  /** The bits of the third byte that a setter must leave alone. */
  predicate SameFlags(b: byte, r: byte, but: byte) {
    (b ^ r) & !but == 0
  }

  function WithType(b2: byte, t: byte): (r: byte)
    ensures TypeOf(r) == t & 0x03 && SameFlags(b2, r, 0xC0)
  {
    (b2 & 0x3F) | ((t << 6) & 0xC0)
  }

  function WithHeartbeat(b2: byte, on: bool): (r: byte)
    ensures HeartbeatOf(r) == on && SameFlags(b2, r, 0x20)
  {
    if on then b2 | 0x20 else b2 & 0xDF
  }

  function WithOneway(b2: byte, on: bool): (r: byte)
    ensures OnewayOf(r) == on && SameFlags(b2, r, 0x10)
  {
    if on then b2 | 0x10 else b2 & 0xEF
  }

  function WithCompress(b2: byte, c: byte): (r: byte)
    ensures CompressOf(r) == c & 0x07 && SameFlags(b2, r, 0x0E)
  {
    (b2 & 0xF1) | ((c << 1) & 0x0E)
  }

  /** A field of the third byte survives a change of other bits. */
  lemma FlagsApart(b: byte, r: byte, but: byte)
    requires SameFlags(b, r, but)
    ensures but & 0xC0 == 0 ==> TypeOf(r) == TypeOf(b)
    ensures but & 0x20 == 0 ==> HeartbeatOf(r) == HeartbeatOf(b)
    ensures but & 0x10 == 0 ==> OnewayOf(r) == OnewayOf(b)
    ensures but & 0x0E == 0 ==> CompressOf(r) == CompressOf(b)
    ensures but & 1 == 0 ==> r & 1 == b & 1
  {
    assert but & 0xC0 == 0 ==> r & 0xC0 == b & 0xC0;
    assert but & 0x20 == 0 ==> r & 0x20 == b & 0x20;
    assert but & 0x10 == 0 ==> r & 0x10 == b & 0x10;
    assert but & 0x0E == 0 ==> r & 0x0E == b & 0x0E;
  }

  /** The serialize setter only adds bits, so reading back what was set needs a byte without other bits. */
  lemma SerializeGetAfterSet(before: byte, st: byte)
    ensures (before | st) == st <==> before & !st == 0
  {
  }

  lemma SecondByteIs(a: byte, b: byte)
    requires VersionOf(a) == VersionOf(b) && StatusOf(a) == StatusOf(b)
    ensures a == b
  {
  }

  lemma ThirdByteIs(a: byte, b: byte)
    requires TypeOf(a) == TypeOf(b) && HeartbeatOf(a) == HeartbeatOf(b) && OnewayOf(a) == OnewayOf(b)
    requires CompressOf(a) == CompressOf(b) && a & 1 == b & 1
    ensures a == b
  {
  }

  lemma {:induction false} BytesOfNumber(a: seq<byte>, b: seq<byte>)
    requires |a| == |b| && GetBE(a) == GetBE(b)
    ensures a == b
  {
    hide OfByte;
    if a != [] {
      var n := |a| - 1;
      var (x, y) := (OfByte(a[n]), OfByte(b[n]));
      assert GetBE(a[..n]) * 256 + x == GetBE(b[..n]) * 256 + y;
      assert GetBE(a[..n]) == GetBE(b[..n]) && x == y;
      BytesOfNumber(a[..n], b[..n]);
      SameByte(a[n], b[n]);
      assert a == a[..n] + [a[n]] && b == b[..n] + [b[n]];
    }
  }

  /** The fields say everything: two headers with equal fields are equal byte for byte. */
  lemma FieldsDetermineBom(a: Bom, b: Bom)
    requires FieldsOf(a) == FieldsOf(b)
    ensures a == b
  {
    hide VersionOf, StatusOf, TypeOf, HeartbeatOf, OnewayOf, CompressOf, GetBE;
    SecondByteIs(a[1], b[1]);
    ThirdByteIs(a[2], b[2]);
    BytesOfNumber(a[4..], b[4..]);
    assert a[4..] == b[4..];
    assert forall i :: 4 <= i < 12 ==> a[i] == a[4..][i - 4] && b[i] == b[4..][i - 4];
  }

  /** A header buffer changed in place. Each setter changes its own field and nothing else a header says. */
  class Header {
    const bytes: array<byte>

    ghost predicate Valid()
      reads this
    {
      bytes.Length == 12
    }

    ghost function Value(): (b: Bom)
      requires Valid()
      reads this, bytes
    {
      bytes[..]
    }

    constructor ()
      ensures Valid() && fresh(bytes) && FieldsOf(Value()) == Fields(MAGIC, 0, 0, 0, false, false, 0, 0, 0, 0)
    {
      bytes := new byte[12](_ => 0);
      new;
      bytes[0] := MAGIC;
      ZerosAreZero([0, 0, 0, 0, 0, 0, 0, 0]);
      assert bytes[..] == [MAGIC, 0, 0, 0] + [0, 0, 0, 0, 0, 0, 0, 0];
    }

    method SetVersion(v: byte)
      requires Valid()
      modifies bytes
      ensures FieldsOf(Value()) == FieldsOf(old(Value())).(version := v & 0x0F)
    {
      hide VersionOf, StatusOf, TypeOf, HeartbeatOf, OnewayOf, CompressOf, GetBE, WithVersion;
      ghost var was := bytes[..];
      bytes[1] := WithVersion(bytes[1], v);
      assert bytes[4..] == was[4..];
    }

    method SetStatus(s: byte)
      requires Valid()
      modifies bytes
      ensures FieldsOf(Value()) == FieldsOf(old(Value())).(status := s & 0x0F)
    {
      hide VersionOf, StatusOf, TypeOf, HeartbeatOf, OnewayOf, CompressOf, GetBE, WithStatus;
      ghost var was := bytes[..];
      bytes[1] := WithStatus(bytes[1], s);
      assert bytes[4..] == was[4..];
    }

    method SetMessageType(t: byte)
      requires Valid()
      modifies bytes
      ensures FieldsOf(Value()) == FieldsOf(old(Value())).(messageType := t & 0x03)
    {
      FlagsApart(bytes[2], WithType(bytes[2], t), 0xC0);
      hide VersionOf, StatusOf, TypeOf, HeartbeatOf, OnewayOf, CompressOf, GetBE, WithType;
      ghost var was := bytes[..];
      bytes[2] := WithType(bytes[2], t);
      assert bytes[4..] == was[4..];
    }

    method SetHeartbeat(on: bool)
      requires Valid()
      modifies bytes
      ensures FieldsOf(Value()) == FieldsOf(old(Value())).(heartbeat := on)
    {
      FlagsApart(bytes[2], WithHeartbeat(bytes[2], on), 0x20);
      hide VersionOf, StatusOf, TypeOf, HeartbeatOf, OnewayOf, CompressOf, GetBE, WithHeartbeat;
      ghost var was := bytes[..];
      bytes[2] := WithHeartbeat(bytes[2], on);
      assert bytes[4..] == was[4..];
    }

    method SetOneway(on: bool)
      requires Valid()
      modifies bytes
      ensures FieldsOf(Value()) == FieldsOf(old(Value())).(oneway := on)
    {
      FlagsApart(bytes[2], WithOneway(bytes[2], on), 0x10);
      hide VersionOf, StatusOf, TypeOf, HeartbeatOf, OnewayOf, CompressOf, GetBE, WithOneway;
      ghost var was := bytes[..];
      bytes[2] := WithOneway(bytes[2], on);
      assert bytes[4..] == was[4..];
    }

    method SetCompressType(c: byte)
      requires Valid()
      modifies bytes
      ensures FieldsOf(Value()) == FieldsOf(old(Value())).(compress := c & 0x07)
    {
      FlagsApart(bytes[2], WithCompress(bytes[2], c), 0x0E);
      hide VersionOf, StatusOf, TypeOf, HeartbeatOf, OnewayOf, CompressOf, GetBE, WithCompress;
      ghost var was := bytes[..];
      bytes[2] := WithCompress(bytes[2], c);
      assert bytes[4..] == was[4..];
    }

    method SetSerializeType(st: byte)
      requires Valid()
      modifies bytes
      ensures FieldsOf(Value()) == FieldsOf(old(Value())).(serialize := FieldsOf(old(Value())).serialize | st)
      ensures FieldsOf(Value()).serialize == st <==> FieldsOf(old(Value())).serialize & !st == 0
    {
      SerializeGetAfterSet(bytes[3], st);
      hide VersionOf, StatusOf, TypeOf, HeartbeatOf, OnewayOf, CompressOf, GetBE;
      ghost var was := bytes[..];
      bytes[3] := bytes[3] | st;
      assert bytes[4..] == was[4..];
    }

    method SetSeq(n: nat)
      requires Valid() && n < 0x1_0000_0000_0000_0000
      modifies bytes
      ensures FieldsOf(Value()) == FieldsOf(old(Value())).(sequence := n)
    {
      PowersOf256();
      GetPut(n, 8);
      hide VersionOf, StatusOf, TypeOf, HeartbeatOf, OnewayOf, CompressOf, GetBE, PutBE, Pow256;
      ghost var was := bytes[..];
      CopyInto(bytes, 4, PutBE(n, 8));
      assert bytes[4..] == PutBE(n, 8);
      assert forall i :: 0 <= i < 4 ==> bytes[i] == was[i];
    }

    /** `resetHeader`: everything but the magic number. */
    method Reset()
      requires Valid()
      modifies bytes
      ensures FieldsOf(Value()) == Fields(old(bytes[0]), 0, 0, 0, false, false, 0, 0, 0, 0)
      ensures Value() == [old(bytes[0]), 0, 0, 0, 0, 0, 0, 0, 0, 0, 0, 0]
    {
      var was := bytes[0];
      CopyInto(bytes, 1, [0, 0, 0, 0, 0, 0, 0, 0, 0, 0, 0]);
      ZerosAreZero([0, 0, 0, 0, 0, 0, 0, 0]);
      assert bytes[..] == [was, 0, 0, 0] + [0, 0, 0, 0, 0, 0, 0, 0];
    }
  }

  lemma {:induction false} ZerosAreZero(b: seq<byte>)
    requires forall i :: 0 <= i < |b| ==> b[i] == 0
    ensures GetBE(b) == 0
  {
    if b != [] { ZerosAreZero(b[..|b| - 1]); }
  }
}
