/** Byte strings (Node buffers) and the big-endian 16-bit fields that every layer of the protocol uses. */
module Octets {

  datatype Option<+T> = None | Some(value: T)

  type byte = x: int | 0 <= x < 256

  type Bytes = seq<byte>

  /** `readUInt16BE` of the two bytes. */
  function U16(hi: byte, lo: byte): (n: nat)
    ensures n < 0x1_0000
  {
    hi * 256 + lo
  }

  /** `writeUInt16BE`: the only two bytes that `U16` reads back as `n`. */
  function PutU16(n: nat): (b: Bytes)
    requires n < 0x1_0000
    ensures |b| == 2 && U16(b[0], b[1]) == n
  {
    [n / 256, n % 256]
  }

  /** `Buffer.concat`. */
  function Flatten(parts: seq<Bytes>): Bytes {
    if parts == [] then [] else parts[0] + Flatten(parts[1..])
  }

  function Pow2(w: nat): nat { if w == 0 then 1 else 2 * Pow2(w - 1) }

  /** Exclusive or of the low `w` bits. */
  function XorBits(w: nat, a: nat, b: nat): (r: nat)
    ensures r < Pow2(w)
  {
    if w == 0 then 0 else (if a % 2 == b % 2 then 0 else 1) + 2 * XorBits(w - 1, a / 2, b / 2)
  }

  /** Bytewise exclusive or, as the CBC mode uses it. */
  function XorByte(a: byte, b: byte): byte {
    assert Pow2(8) == 256;
    XorBits(8, a, b)
  }

  lemma Halves(bit: nat, rest: nat)
    requires bit < 2
    ensures (bit + 2 * rest) / 2 == rest && (bit + 2 * rest) % 2 == bit
  {
  }

  lemma {:induction false} XorBitsInvolution(w: nat, a: nat, b: nat)
    requires a < Pow2(w)
    ensures XorBits(w, XorBits(w, a, b), b) == a
  {
    if w > 0 {
      XorBitsInvolution(w - 1, a / 2, b / 2);
      Halves(if a % 2 == b % 2 then 0 else 1, XorBits(w - 1, a / 2, b / 2));
    }
  }

  lemma {:induction false} XorBitsCommutes(w: nat, a: nat, b: nat)
    ensures XorBits(w, a, b) == XorBits(w, b, a)
  {
    if w > 0 {
      XorBitsCommutes(w - 1, a / 2, b / 2);
    }
  }

  lemma XorByteInvolution(a: byte, b: byte)
    ensures XorByte(XorByte(a, b), b) == a
  {
    assert Pow2(8) == 256;
    XorBitsInvolution(8, a, b);
  }

  lemma XorByteInjective(a: byte, b: byte, c: byte)
    ensures XorByte(a, b) == XorByte(a, c) <==> b == c
  {
    XorBitsCommutes(8, a, b);
    XorBitsCommutes(8, a, c);
    XorByteInvolution(b, a);
    XorByteInvolution(c, a);
  }

  lemma {:induction false} XorBitsUnits(w: nat, a: nat)
    requires a < Pow2(w)
    ensures XorBits(w, a, 0) == a && XorBits(w, a, a) == 0
  {
    if w > 0 {
      XorBitsUnits(w - 1, a / 2);
    }
  }

  /** Exclusive or with zero changes nothing, and with itself leaves nothing. */
  lemma XorByteUnits(a: byte)
    ensures XorByte(a, 0) == a && XorByte(a, a) == 0
  {
    assert Pow2(8) == 256;
    XorBitsUnits(8, a);
  }
}
