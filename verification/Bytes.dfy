/** Bytes and the big-endian integers the TTLV encoding is made of. */
module Bytes {

  type Byte = x: int | 0 <= x < 256

  const TWO_8 := 0x100
  const TWO_16 := 0x1_0000
  const TWO_24 := 0x100_0000
  const TWO_31 := 0x8000_0000
  const TWO_32 := 0x1_0000_0000

  /** binary.BigEndian.PutUint32 of uint32(n): the conversion keeps n modulo 2^32. */
  function PutU32(n: int): (bs: seq<Byte>)
    ensures |bs| == 4
  {
    var u := n % TWO_32;
    [u / TWO_24, u / TWO_16 % TWO_8, u / TWO_8 % TWO_8, u % TWO_8]
  }

  /** binary.BigEndian.Uint32. */
  function U32(bs: seq<Byte>): (n: nat)
    requires |bs| == 4
    ensures n < TWO_32
  {
    bs[0] * TWO_24 + bs[1] * TWO_16 + bs[2] * TWO_8 + bs[3]
  }

  /** The conversion int32(u) of an unsigned 32-bit value. */
  function AsI32(u: nat): (n: int)
    requires u < TWO_32
    ensures -TWO_31 <= n < TWO_31 && n % TWO_32 == u
  {
    if u < TWO_31 then u else u - TWO_32
  }

  /** binary.BigEndian.PutUint64 of uint64(n). */
  function PutU64(n: int): (bs: seq<Byte>)
    ensures |bs| == 8
  {
    PutU32(n / TWO_32) + PutU32(n)
  }

  lemma U32AfterPut(n: int)
    ensures U32(PutU32(n)) == n % TWO_32
  {
    var u := n % TWO_32;
    assert u == u / TWO_8 * TWO_8 + u % TWO_8;
    assert u / TWO_8 == u / TWO_16 * TWO_8 + u / TWO_8 % TWO_8;
    assert u / TWO_16 == u / TWO_24 * TWO_8 + u / TWO_16 % TWO_8;
  }

  lemma PutAfterU32(bs: seq<Byte>)
    requires |bs| == 4
    ensures PutU32(U32(bs)) == bs
  {
    var u := U32(bs);
    var h := bs[0] * TWO_8 + bs[1];
    Shift8(h * TWO_8 + bs[2], bs[3]);
    Shift8(h, bs[2]);
    Shift8(bs[0], bs[1]);
    Shift16(h, bs[2] * TWO_8 + bs[3]);
    Shift24(bs[0], bs[1] * TWO_16 + bs[2] * TWO_8 + bs[3]);
  }

  lemma Shift8(h: nat, low: Byte)
    ensures (h * TWO_8 + low) / TWO_8 == h && (h * TWO_8 + low) % TWO_8 == low
  {
  }

  lemma Shift16(h: nat, low: nat)
    requires low < TWO_16
    ensures (h * TWO_16 + low) / TWO_16 == h
  {
  }

  lemma Shift24(h: nat, low: nat)
    requires low < TWO_24
    ensures (h * TWO_24 + low) / TWO_24 == h
  {
  }

  function Zeros(n: nat): (bs: seq<Byte>)
    ensures |bs| == n
    ensures forall i :: 0 <= i < n ==> bs[i] == 0
  {
    seq(n, _ => 0)
  }

  /** bytes.Join with an empty separator. */
  function Concat(parts: seq<seq<Byte>>): (bs: seq<Byte>)
  {
    if parts == [] then [] else parts[0] + Concat(parts[1..])
  }
}
