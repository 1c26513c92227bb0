/** AES-128-CBC as lib/crypto.js uses it.  The block cipher itself is abstract: any two functions on 16-byte
    blocks of which one undoes the other.  The mode (section 6.2 of NIST SP 800-38A) and the padding
    (section 6.3 of RFC 5652) are concrete. */
module Cipher {
  import opened Octets

  type Block = b: Bytes | |b| == 16 witness [0, 0, 0, 0, 0, 0, 0, 0, 0, 0, 0, 0, 0, 0, 0, 0]

  datatype BlockFunctions = BlockFunctions(enc: (Block, Block) -> Block, dec: (Block, Block) -> Block) {
    ghost predicate Inverse() {
      forall key: Block, b: Block :: dec(key, enc(key, b)) == b
    }
  }

  type BlockCipher = c: BlockFunctions | c.Inverse()
    witness BlockFunctions((k, b) => b, (k, b) => b)

  function Xor(a: Block, b: Block): Block {
    seq(16, i requires 0 <= i < 16 => XorByte(a[i], b[i]))
  }

  lemma XorInvolution(a: Block, b: Block)
    ensures Xor(Xor(a, b), b) == a
  {
    forall i | 0 <= i < 16 ensures Xor(Xor(a, b), b)[i] == a[i] {
      XorByteInvolution(a[i], b[i]);
    }
  }

  // ----- The mode -----

  function CbcEncrypt(c: BlockCipher, key: Block, iv: Block, p: Bytes): (ct: Bytes)
    requires |p| % 16 == 0
    ensures |ct| == |p|
    decreases |p|
  {
    if p == [] then [] else
      var x := c.enc(key, Xor(p[..16], iv));
      x + CbcEncrypt(c, key, x, p[16..])
  }

  function CbcDecrypt(c: BlockCipher, key: Block, iv: Block, ct: Bytes): (p: Bytes)
    requires |ct| % 16 == 0
    ensures |p| == |ct|
    decreases |ct|
  {
    if ct == [] then [] else
      Xor(c.dec(key, ct[..16]), iv) + CbcDecrypt(c, key, ct[..16], ct[16..])
  }

  lemma {:induction false} CbcRoundTrip(c: BlockCipher, key: Block, iv: Block, p: Bytes)
    requires |p| % 16 == 0
    ensures CbcDecrypt(c, key, iv, CbcEncrypt(c, key, iv, p)) == p
    decreases |p|
  {
    if p != [] {
      var b: Block := p[..16];
      var x := c.enc(key, Xor(b, iv));
      var rest: Bytes := CbcEncrypt(c, key, x, p[16..]);
      var ct: Bytes := CbcEncrypt(c, key, iv, p);
      assert ct[..16] == x && ct[16..] == rest;
      assert c.dec(key, x) == Xor(b, iv);
      CbcRoundTrip(c, key, x, p[16..]);
      XorInvolution(b, iv);
      assert p == b + p[16..];
    }
  }

  function BlockAt(s: Bytes, i: nat): Block
    requires 16 * i + 16 <= |s|
  {
    s[16 * i..16 * i + 16]
  }

  /** The equations of the mode: each ciphertext block is the encryption of its plaintext block combined with
      the ciphertext block before it, the first with the initialisation vector. */
  lemma {:induction false} CbcEquations(c: BlockCipher, key: Block, iv: Block, p: Bytes, i: nat)
    requires |p| % 16 == 0 && 16 * i < |p|
    ensures var ct := CbcEncrypt(c, key, iv, p);
            BlockAt(ct, i) == c.enc(key, Xor(BlockAt(p, i), if i == 0 then iv else BlockAt(ct, i - 1)))
    decreases i
  {
    hide Xor;
    var x := c.enc(key, Xor(p[..16], iv));
    var ct: Bytes := CbcEncrypt(c, key, iv, p);
    assert ct[..16] == x && ct[16..] == CbcEncrypt(c, key, x, p[16..]);
    if i > 0 {
      CbcEquations(c, key, x, p[16..], i - 1);
      BlockShifts(ct, i);
      BlockShifts(p, i);
      if i > 1 {
        BlockShifts(ct, i - 1);
      }
    }
  }

  lemma BlockShifts(s: Bytes, i: nat)
    requires 1 <= i && 16 * i + 16 <= |s|
    ensures BlockAt(s, i) == BlockAt(s[16..], i - 1)
  {
    SliceShifts(s, 16 * i - 16);
  }

  lemma SliceShifts(s: Bytes, n: nat)
    requires n + 32 <= |s|
    ensures s[n + 16..n + 32] == s[16..][n..n + 16]
  {
    var a, b := s[n + 16..n + 32], s[16..][n..n + 16];
    forall j | 0 <= j < 16 ensures a[j] == b[j] {
      assert a[j] == s[n + 16 + j];
    }
  }

  // ----- Padding -----

  function Padding(n: nat): (k: nat)
    ensures 1 <= k <= 16 && (n + k) % 16 == 0
  {
    16 - n % 16
  }

  function Pad(p: Bytes): (r: Bytes)
    ensures |r| == |p| + Padding(|p|) && |r| % 16 == 0
    ensures p <= r && forall i :: |p| <= i < |r| ==> r[i] == |r| - |p|
  {
    var n: byte := Padding(|p|);
    p + seq(n, _ => n)
  }

  /** The receiving side strips as many bytes as the last byte says, if that is between 1 and 16. */
  function Strip(raw: Bytes): (p: Bytes)
    requires |raw| % 16 == 0
  {
    if raw == [] then raw
    else
      var pad := raw[|raw| - 1];
      if 1 <= pad <= 16 then raw[..|raw| - pad] else raw
  }

  lemma StripPad(p: Bytes)
    ensures Strip(Pad(p)) == p
  {
  }

  // ----- lib/crypto.js -----

  /** `aesEncrypt`: `createCipheriv` throws on a key or IV of the wrong size.  The ciphertext fits the 16-bit length
      of a frame exactly when the plaintext has at most 65519 bytes. */
  function AesEncrypt(c: BlockCipher, key: Bytes, iv: Bytes, p: Bytes): (r: Option<Bytes>)
    ensures r.Some? <==> |key| == 16 && |iv| == 16
    ensures r.Some? ==> |r.value| == 16 * (|p| / 16 + 1) && (|r.value| <= 0xFFFF <==> |p| <= 65519)
  {
    if |key| != 16 || |iv| != 16 then None else Some(CbcEncrypt(c, key, iv, Pad(p)))
  }

  /** `aesDecrypt`: throws also on a ciphertext that is not a whole number of blocks. */
  function AesDecrypt(c: BlockCipher, key: Bytes, iv: Bytes, ct: Bytes): (r: Option<Bytes>)
    ensures r.Some? <==> |key| == 16 && |iv| == 16 && |ct| % 16 == 0
  {
    if |key| != 16 || |iv| != 16 || |ct| % 16 != 0 then None else Some(Strip(CbcDecrypt(c, key, iv, ct)))
  }

  function DeriveAesParams(sessionKey: Bytes): (r: Option<(Block, Block)>)
    ensures r.None? <==> |sessionKey| < 32
    ensures r.Some? ==> r.value.0 + r.value.1 <= sessionKey
  {
    if |sessionKey| < 32 then None
    else
      assert sessionKey[..16] + sessionKey[16..32] == sessionKey[..32];
      Some((sessionKey[..16], sessionKey[16..32]))
  }

  /** Every plaintext of every length comes back. */
  lemma AesRoundTrip(c: BlockCipher, key: Block, iv: Block, p: Bytes)
    ensures AesDecrypt(c, key, iv, AesEncrypt(c, key, iv, p).value) == Some(p)
  {
    CbcRoundTrip(c, key, iv, Pad(p));
    StripPad(p);
  }

  /** A device that sends whole blocks without padding is understood exactly when the last byte does not look
      like padding; and otherwise loses as many bytes as it says. */
  lemma UnpaddedRoundTrip(c: BlockCipher, key: Block, iv: Block, p: Bytes)
    requires |p| % 16 == 0
    ensures AesDecrypt(c, key, iv, CbcEncrypt(c, key, iv, p)) == Some(p)
            <==> p == [] || !(1 <= p[|p| - 1] <= 16)
    ensures p != [] && 1 <= p[|p| - 1] <= 16 ==>
              AesDecrypt(c, key, iv, CbcEncrypt(c, key, iv, p)) == Some(p[..|p| - p[|p| - 1]])
  {
    CbcRoundTrip(c, key, iv, p);
  }

  // ----- A receiver with the wrong initialisation vector -----

  /** Only the first block depends on the initialisation vector, and in it exactly the bytes in which the two
      vectors differ. */
  lemma WrongIv(c: BlockCipher, key: Block, iv: Block, iv': Block, ct: Bytes)
    requires |ct| % 16 == 0 && ct != []
    ensures var p, p' := CbcDecrypt(c, key, iv, ct), CbcDecrypt(c, key, iv', ct);
            && p'[16..] == p[16..]
            && forall i :: 0 <= i < 16 ==> (p'[i] == p[i] <==> iv'[i] == iv[i])
  {
    var d := c.dec(key, ct[..16]);
    var p, p' := CbcDecrypt(c, key, iv, ct), CbcDecrypt(c, key, iv', ct);
    var rest := CbcDecrypt(c, key, ct[..16], ct[16..]);
    assert p[16..] == rest && p'[16..] == rest;
    forall i | 0 <= i < 16 ensures p'[i] == p[i] <==> iv'[i] == iv[i] {
      assert p[i] == XorByte(d[i], iv[i]) && p'[i] == XorByte(d[i], iv'[i]);
      XorByteInjective(d[i], iv'[i], iv[i]);
    }
  }

  /** For a frame of two or more blocks the length survives, and so does everything after the first block. */
  lemma WrongIvKeepsTail(c: BlockCipher, key: Block, iv: Block, iv': Block, ct: Bytes)
    requires |ct| % 16 == 0 && |ct| >= 32
    ensures var p, p' := AesDecrypt(c, key, iv, ct).value, AesDecrypt(c, key, iv', ct).value;
            && |p'| == |p| >= 16 && p'[16..] == p[16..]
            && forall i :: 0 <= i < 16 ==> (p'[i] == p[i] <==> iv'[i] == iv[i])
  {
    WrongIv(c, key, iv, iv', ct);
    var r, r' := CbcDecrypt(c, key, iv, ct), CbcDecrypt(c, key, iv', ct);
    assert r[|r| - 1] == r[16..][|r| - 17] && r'[|r| - 1] == r'[16..][|r| - 17];
    var n := |Strip(r)|;
    assert Strip(r) == r[..n] && Strip(r') == r'[..n];
    assert r[..n][16..] == r[16..][..n - 16] && r'[..n][16..] == r'[16..][..n - 16];
  }

  /** A frame of a single block carries its padding in the block the wrong vector spoils: its length survives
      exactly when the vectors agree in their last byte or neither reading ends in a padding byte. */
  lemma WrongIvOneBlock(c: BlockCipher, key: Block, iv: Block, iv': Block, ct: Bytes)
    requires |ct| == 16
    ensures var r, r' := CbcDecrypt(c, key, iv, ct)[15], CbcDecrypt(c, key, iv', ct)[15];
            |AesDecrypt(c, key, iv', ct).value| == |AesDecrypt(c, key, iv, ct).value|
            <==> iv'[15] == iv[15] || (!(1 <= r <= 16) && !(1 <= r' <= 16))
  {
    WrongIv(c, key, iv, iv', ct);
  }
}
