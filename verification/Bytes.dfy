/** Bytes, big-endian integers and ASCII text, as `encoding/binary` writes and reads them. */
module Bytes {

  type byte = bv8

  function ToByte(n: nat): byte
    requires n < 256
  {
    n as byte
  }

  function OfByte(b: byte): (n: nat)
    ensures n < 256
  {
    b as nat
  }

  lemma ByteRoundTrip(n: nat)
    requires n < 256
    ensures OfByte(ToByte(n)) == n % 256
  {
  }

  lemma SameByte(a: byte, b: byte)
    requires OfByte(a) == OfByte(b)
    ensures a == b
  {
  }

  /** 256 to the power `n`. */
  function Pow256(n: nat): (p: nat)
    ensures p > 0
  {
    if n == 0 then 1 else 256 * Pow256(n - 1)
  }

  /** The `w` big-endian bytes of `n`. */
  function PutBE(n: nat, w: nat): (b: seq<byte>)
    requires n < Pow256(w)
    ensures |b| == w
  {
    if w == 0 then [] else PutBE(n / 256, w - 1) + [ToByte(n % 256)]
  }

  function GetBE(b: seq<byte>): (n: nat)
    ensures n < Pow256(|b|)
  {
    if b == [] then 0 else GetBE(b[..|b| - 1]) * 256 + OfByte(b[|b| - 1])
  }

  lemma GetAppend(front: seq<byte>, last: byte)
    ensures GetBE(front + [last]) == GetBE(front) * 256 + OfByte(last)
  {
    hide OfByte;
    assert (front + [last])[..|front|] == front;
  }

  lemma {:induction false} GetPut(n: nat, w: nat)
    requires n < Pow256(w)
    ensures GetBE(PutBE(n, w)) == n
  {
    hide ToByte, OfByte, GetBE;
    if w > 0 {
      var front, last := PutBE(n / 256, w - 1), ToByte(n % 256);
      GetAppend(front, last);
      ByteRoundTrip(n % 256);
      GetPut(n / 256, w - 1);
      hide PutBE;
      assert n == n / 256 * 256 + n % 256;
    } else {
      EmptyIsZero();
    }
  }

  lemma EmptyIsZero()
    ensures GetBE([]) == 0
  {
  }

  lemma PowersOf256()
    ensures Pow256(1) == 0x100 && Pow256(2) == 0x1_0000 && Pow256(4) == 0x1_0000_0000
    ensures Pow256(8) == 0x1_0000_0000_0000_0000
  {
    assert Pow256(3) == 256 * Pow256(2) && Pow256(5) == 256 * Pow256(4) && Pow256(6) == 256 * Pow256(5);
    assert Pow256(7) == 256 * Pow256(6);
  }

  lemma TwoBytes(n: nat)
    requires n < 0x1_0000
    ensures n < Pow256(2) && GetBE(PutBE(n, 2)) == n
  {
    PowersOf256();
    hide Pow256, PutBE, GetBE;
    GetPut(n, 2);
  }

  /** An ASCII text as bytes. */
  function Ascii(s: string): (b: seq<byte>)
    ensures |b| == |s|
  {
    seq(|s|, i requires 0 <= i < |s| => ToByte(s[i] as int % 256))
  }

  /** `copy(dst[at:], src)` where `src` fits. */
  method CopyInto(dst: array<byte>, at: nat, src: seq<byte>)
    requires at + |src| <= dst.Length
    modifies dst
    ensures dst[..] == old(dst[..at]) + src + old(dst[at + |src|..])
  {
    ghost var was := dst[..];
    for i := 0 to |src|
      invariant forall k :: 0 <= k < i ==> dst[at + k] == src[k]
      invariant forall k :: 0 <= k < dst.Length && !(at <= k < at + i) ==> dst[k] == was[k]
    {
      dst[at + i] := src[i];
    }
    assert dst[..at] == was[..at] && dst[at..at + |src|] == src && dst[at + |src|..] == was[at + |src|..];
    assert dst[..] == dst[..at] + dst[at..at + |src|] + dst[at + |src|..];
  }
}
