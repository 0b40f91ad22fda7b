/** The cryptographic primitives, as parameters of the model.  Every statement about them is
    for all functions of these types: a hash is any function with the right output length, a
    cipher in counter mode is exclusive-or with any keystream (section 6.5 of NIST SP 800-38A). */
module Crypto {
  import opened Wire

  const HASH_LENGTH := 20      // SHA-1, hashLength of both protocol versions
  const HASH2_LENGTH := 32     // SHA-256, hash2Length
  const AES_KEY_LENGTH := 16   // keyLength
  const AES_BLOCK := 16

  /** A DSA public key. */
  datatype PublicKey = PublicKey(p: nat, q: nat, g: nat, y: nat)

  datatype Primitives = Primitives(
    sha1: bytes -> bytes,
    sha256: bytes -> bytes,
    hmacSha1: (bytes, bytes) -> bytes,
    hmacSha256: (bytes, bytes) -> bytes,
    keystream: (bytes, bytes, nat) -> bytes,
    dsaVerify: (PublicKey, bytes, bytes) -> bool)
  {
    ghost predicate Valid() {
      && (forall d :: |sha1(d)| == HASH_LENGTH)
      && (forall d :: |sha256(d)| == HASH2_LENGTH)
      && (forall k, d :: |hmacSha1(k, d)| == HASH_LENGTH)
      && (forall k, d :: |hmacSha256(k, d)| == HASH2_LENGTH)
      && (forall k, iv, n :: |keystream(k, iv, n)| == n)
    }
  }

  function Pow2(n: nat): nat {
    if n == 0 then 1 else 2 * Pow2(n - 1)
  }

  /** Exclusive-or of the low n bits. */
  function XorBits(a: nat, b: nat, n: nat): (r: nat)
    ensures r < Pow2(n)
  {
    if n == 0 then 0 else 2 * XorBits(a / 2, b / 2, n - 1) + (a + b) % 2
  }

  function Bit(a: nat, i: nat): nat {
    if i == 0 then a % 2 else Bit(a / 2, i - 1)
  }

  lemma {:induction false} XorBitsAt(a: nat, b: nat, n: nat, i: nat)
    requires i < n
    ensures Bit(XorBits(a, b, n), i) == (Bit(a, i) + Bit(b, i)) % 2
  {
    LowBit(XorBits(a / 2, b / 2, n - 1), a, b);
    if i == 0 {
      LowSum(a, b);
    } else {
      XorBitsAt(a / 2, b / 2, n - 1, i - 1);
    }
  }

  lemma LowSum(a: nat, b: nat)
    ensures (a + b) % 2 == (a % 2 + b % 2) % 2
  {
  }

  lemma {:induction false} XorBitsTwice(a: nat, b: nat, n: nat)
    requires a < Pow2(n)
    ensures XorBits(XorBits(a, b, n), b, n) == a
  {
    if n > 0 {
      XorBitsTwice(a / 2, b / 2, n - 1);
      LowBit(XorBits(a / 2, b / 2, n - 1), a, b);
    }
  }

  lemma LowBit(high: nat, a: nat, b: nat)
    ensures var x := 2 * high + (a + b) % 2; x / 2 == high && x % 2 == (a + b) % 2 && (x + b) % 2 == a % 2
  {
  }

  lemma ByteWidth()
    ensures Pow2(8) == 0x100
  {
  }

  function XorByte(a: byte, b: byte): byte {
    ByteWidth();
    XorBits(a, b, 8)
  }

  lemma XorTwice(a: byte, b: byte)
    ensures XorByte(XorByte(a, b), b) == a
  {
    ByteWidth();
    XorBitsTwice(a, b, 8);
  }

  function Xor(data: bytes, stream: bytes): (r: bytes)
    requires |stream| == |data|
    ensures |r| == |data|
  {
    seq(|data|, i requires 0 <= i < |data| => XorByte(data[i], stream[i]))
  }

  /** Exclusive-or works bit by bit: each bit of the result is the sum of the two bits without carry. */
  lemma XorAt(data: bytes, stream: bytes, i: nat, j: nat)
    requires |stream| == |data| && i < |data| && j < 8
    ensures Bit(Xor(data, stream)[i], j) == (Bit(data[i], j) + Bit(stream[i], j)) % 2
  {
    ByteWidth();
    XorBitsAt(data[i], stream[i], 8, j);
  }

  /** counterEncipher: AES in counter mode.  Enciphering and deciphering are the same call. */
  function Ctr(c: Primitives, key: bytes, iv: bytes, data: bytes): (r: bytes)
    requires c.Valid()
    ensures |r| == |data|
  {
    Xor(data, c.keystream(key, iv, |data|))
  }

  lemma CtrTwice(c: Primitives, key: bytes, iv: bytes, data: bytes)
    requires c.Valid()
    ensures Ctr(c, key, iv, Ctr(c, key, iv, data)) == data
  {
    var once := Ctr(c, key, iv, data);
    var stream := c.keystream(key, iv, |data|);
    forall i | 0 <= i < |data|
      ensures Ctr(c, key, iv, once)[i] == data[i]
    {
      XorTwice(data[i], stream[i]);
    }
  }
}
