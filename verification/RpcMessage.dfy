/** The RPC message codec: length-prefixed fields, metadata in any key order, messages back to back on a stream. */
module RpcMessage {
  import opened Text
  import opened Bytes
  import opened RpcHeader

  type Str = seq<byte>

  const ServicePath: Str := Ascii("ServicePath")
  const ServiceMethod: Str := Ascii("ServiceMethod")

  const U32: nat := 0x1_0000_0000

  datatype MessageValue = MessageValue(bom: Bom, path: Str, header: map<Str, Str>, body: Str, payload: Str)

  /** `EndOfInput` covers both ends of stream that `io.ReadFull` and `io.CopyN` report. */
  datatype Status = Done | EndOfInput | WrongMagic(b: byte) | TooLong | Malformed | MetaMissing

  function Get(h: map<Str, Str>, k: Str): Str { if k in h then h[k] else [] }

  // ---- fields ----

  /** A length as four bytes, cut to 32 bits. */
  function PutLength(n: nat): (b: seq<byte>)
    ensures |b| == 4
  {
    PowersOf256();
    PutBE(n % U32, 4)
  }

  function PutField(s: Str): (b: seq<byte>)
    ensures |b| == 4 + |s|
  {
    PutLength(|s|) + s
  }

  /** The next field and what follows it. */
  function TakeField(data: seq<byte>): (r: Option<(Str, seq<byte>)>)
    ensures r.Some? ==> |r.value.0| + 4 + |r.value.1| == |data|
  {
    if |data| < 4 then None
    else
      var n := GetBE(data[..4]);
      if n > |data| - 4 then None else Some((data[4..4 + n], data[4 + n..]))
  }

  lemma LengthBack(n: nat)
    requires n < U32
    ensures GetBE(PutLength(n)) == n
  {
    PowersOf256();
    GetPut(n, 4);
    hide GetBE, PutBE, Pow256;
    assert n % U32 == n;
  }

  lemma FieldRoundTrip(s: Str, rest: seq<byte>)
    requires |s| < U32
    ensures TakeField(PutField(s) + rest) == Some((s, rest))
  {
    LengthBack(|s|);
    hide GetBE, PutLength;
    var data := PutField(s) + rest;
    assert data[..4] == PutLength(|s|) && data[4..4 + |s|] == s && data[4 + |s|..] == rest;
  }

  /** A field is taken exactly when the data begins with an encoded field. */
  lemma TakeFieldExact(data: seq<byte>)
    ensures var r := TakeField(data);
            if r.Some? then |r.value.0| < U32 && data == PutField(r.value.0) + r.value.1
            else forall s: Str, rest :: |s| < U32 ==> data != PutField(s) + rest
  {
    PowersOf256();
    var r := TakeField(data);
    if r.Some? {
      var (s, rest) := r.value;
      LengthBack(|s|);
      BytesOfNumber(PutLength(|s|), data[..4]);
      hide GetBE, PutLength;
      assert data == data[..4] + s + rest;
    } else {
      forall s: Str, rest | |s| < U32 ensures data != PutField(s) + rest {
        FieldRoundTrip(s, rest);
      }
    }
  }

  // ---- metadata ----

  /** A key and its value, twice a field. */
  function PutPair(k: Str, v: Str): seq<byte> { PutField(k) + PutField(v) }

  /** The metadata with the keys in this order. */
  function PutPairs(ks: seq<Str>, m: map<Str, Str>): seq<byte>
    requires forall k :: k in ks ==> k in m
  {
    if ks == [] then [] else PutPair(ks[0], m[ks[0]]) + PutPairs(ks[1..], m)
  }

  /** `ks` lists the keys of `m`, each once. */
  ghost predicate KeyOrder(ks: seq<Str>, m: map<Str, Str>) {
    && (forall k :: k in ks <==> k in m) && (forall i, j :: 0 <= i < j < |ks| ==> ks[i] != ks[j])
  }

  /** So there are as many as keys. */
  lemma EachKeyOnce(ks: seq<Str>, m: map<Str, Str>)
    requires KeyOrder(ks, m)
    ensures |ks| == |m|
  {
    DistinctCount(ks);
    assert (set k | k in ks) == m.Keys;
  }

  lemma {:induction false} DistinctCount(ks: seq<Str>)
    requires forall i, j :: 0 <= i < j < |ks| ==> ks[i] != ks[j]
    ensures |set k | k in ks| == |ks|
  {
    if ks != [] {
      var front, last := ks[..|ks| - 1], ks[|ks| - 1];
      DistinctCount(front);
      assert (set k | k in ks) == (set k | k in front) + {last};
    }
  }

  predicate ShortStrings(m: map<Str, Str>) {
    forall k :: k in m ==> |k| < U32 && |m[k]| < U32
  }

  /** `decodeMetadata` on top of what was read before. */
  function TakePairs(data: seq<byte>, m: map<Str, Str>): Option<map<Str, Str>>
    decreases |data|
  {
    if data == [] then Some(m)
    else
      var k := TakeField(data);
      if k.None? then None
      else
        var v := TakeField(k.value.1);
        if v.None? then None else TakePairs(v.value.1, m[k.value.0 := v.value.0])
  }

  function Restrict(m: map<Str, Str>, ks: seq<Str>): map<Str, Str> {
    map k | k in m && k in ks :: m[k]
  }

  lemma RestrictStep(m: map<Str, Str>, ks: seq<Str>, acc: map<Str, Str>)
    requires ks != [] && ks[0] in m
    ensures acc[ks[0] := m[ks[0]]] + Restrict(m, ks[1..]) == acc + Restrict(m, ks)
  {
  }

  lemma PairTaken(k: Str, v: Str, tail: seq<byte>, acc: map<Str, Str>)
    requires |k| < U32 && |v| < U32
    ensures TakePairs(PutPair(k, v) + tail, acc) == TakePairs(tail, acc[k := v])
  {
    FieldRoundTrip(k, PutField(v) + tail);
    FieldRoundTrip(v, tail);
    hide PutField, TakeField;
    assert PutPair(k, v) + tail == PutField(k) + (PutField(v) + tail);
  }

  /** Whatever the order of the keys, the metadata is read back. */
  lemma {:induction false} PairsRoundTrip(ks: seq<Str>, m: map<Str, Str>, acc: map<Str, Str>)
    requires (forall k :: k in ks ==> k in m) && ShortStrings(m)
    ensures TakePairs(PutPairs(ks, m), acc) == Some(acc + Restrict(m, ks))
  {
    if ks == [] {
      assert PutPairs(ks, m) == [] && acc + Restrict(m, ks) == acc;
    } else {
      hide PutPair, TakePairs, Restrict;
      PairTaken(ks[0], m[ks[0]], PutPairs(ks[1..], m), acc);
      PairsRoundTrip(ks[1..], m, acc[ks[0] := m[ks[0]]]);
      RestrictStep(m, ks, acc);
    }
  }

  lemma MetaRoundTrip(ks: seq<Str>, m: map<Str, Str>)
    requires KeyOrder(ks, m) && ShortStrings(m)
    ensures TakePairs(PutPairs(ks, m), map[]) == Some(m)
  {
    PairsRoundTrip(ks, m, map[]);
    assert map[] + Restrict(m, ks) == m;
  }

  /** `encodeMetadata`: the loop visits the keys in an order of its own choice. */
  method EncodeMetadata(m: map<Str, Str>) returns (b: seq<byte>, ghost ks: seq<Str>)
    ensures KeyOrder(ks, m) && b == PutPairs(ks, m)
    ensures exists order :: KeyOrder(order, m) && b == PutPairs(order, m)
  {
    hide PutPair;
    b, ks := [], [];
    var left := m.Keys;
    while left != {}
      invariant left <= m.Keys && (forall k :: k in ks <==> k in m && k !in left)
      invariant forall i, j :: 0 <= i < j < |ks| ==> ks[i] != ks[j]
      invariant b == PutPairs(ks, m)
      decreases left
    {
      var k :| k in left;
      OneMorePair(ks, m, k);
      b, ks, left := b + PutPair(k, m[k]), ks + [k], left - {k};
    }
  }

  lemma {:induction false} OneMorePair(ks: seq<Str>, m: map<Str, Str>, k: Str)
    requires (forall x :: x in ks ==> x in m) && k in m
    ensures PutPairs(ks + [k], m) == PutPairs(ks, m) + PutPair(k, m[k])
  {
    hide PutPair;
    if ks != [] {
      assert (ks + [k])[1..] == ks[1..] + [k];
      OneMorePair(ks[1..], m, k);
    } else {
      assert ks + [k] == [k] && PutPairs([], m) == [];
    }
  }

  newtype uint32 = x: int | 0 <= x < 0x1_0000_0000

  function ReadU32(b: seq<byte>): (n: uint32)
    requires |b| == 4
    ensures n as nat == GetBE(b)
  {
    PowersOf256();
    GetBE(b) as uint32
  }

  lemma PartAt(data: seq<byte>, n: nat, l: nat, k: nat)
    requires n + 4 + k <= l <= |data|
    ensures data[n..l][4..4 + k] == data[n + 4..n + 4 + k] && data[n..l][4 + k..] == data[n + 4 + k..l]
  {
    var w := data[n..l];
    assert forall i :: 0 <= i < l - n ==> w[i] == data[n + i];
    assert w[4..4 + k] == data[n + 4..n + 4 + k];
  }

  /** One field of the metadata, at offset `n`. */
  method ReadPart(l: uint32, data: seq<byte>, n: uint32) returns (r: Option<(Str, uint32)>)
    requires n <= l && l as nat <= |data|
    ensures r.Some? ==> n < r.value.1 <= l
    ensures TakeField(data[n..l]) == if r.None? then None else Some((r.value.0, data[r.value.1..l]))
  {
    hide GetBE;
    if 4 > l - n { return None; }
    var sl := ReadU32(data[n..n + 4]);
    var at := n + 4;
    assert data[n..l][..4] == data[n..at];
    if sl > l - at { return None; }
    PartAt(data, n as nat, l as nat, sl as nat);
    r := Some((data[at..at + sl], at + sl));
  }

  /** The loop in 32-bit arithmetic, which never wraps and never reads outside the data. */
  method DecodeMetadata(l: uint32, data: seq<byte>) returns (r: Option<map<Str, Str>>)
    ensures r == if |data| % U32 < l as nat then None else TakePairs(data[..l], map[])
  {
    hide TakeField;
    if |data| % U32 < l as nat { return None; }
    assert |data| >= |data| % U32;
    var m: map<Str, Str> := map[];
    var n: uint32 := 0;
    while n < l
      invariant n <= l && TakePairs(data[n..l], m) == TakePairs(data[..l], map[])
    {
      var k := ReadPart(l, data, n);
      if k.None? { return None; }
      var v := ReadPart(l, data, k.value.1);
      if v.None? { return None; }
      m, n := m[k.value.0 := v.value.0], v.value.1;
    }
    r := Some(m);
  }
}
