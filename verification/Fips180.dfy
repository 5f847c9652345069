/** The message digest SHA-1 as FIPS 180-4 defines it. */
module Fips180 {
  import opened Bytes

  // Section 3.2: operations on 32-bit words; addition is modulo 2 to the 32.

  type Word = bv32

  function And(x: Word, y: Word): Word { x & y }

  function Or(x: Word, y: Word): Word { x | y }

  function Xor(x: Word, y: Word): Word { x ^ y }

  function Not(x: Word): Word { !x }

  function Add(x: Word, y: Word): Word { x + y }

  function RotL(n: nat, x: Word): Word
    requires n < 32
  {
    x.RotateLeft(n)
  }

  // Section 4.1.1: the functions f_t.

  function Ch(x: Word, y: Word, z: Word): Word { Xor(And(x, y), And(Not(x), z)) }

  function Parity(x: Word, y: Word, z: Word): Word { Xor(Xor(x, y), z) }

  function Maj(x: Word, y: Word, z: Word): Word { Xor(Xor(And(x, y), And(x, z)), And(y, z)) }

  function F(t: nat, x: Word, y: Word, z: Word): Word
    requires t < 80
  {
    if t < 20 then Ch(x, y, z) else if t < 40 then Parity(x, y, z) else if t < 60 then Maj(x, y, z) else Parity(x, y, z)
  }

  // Section 4.2.1: the constants K_t.
  function K(t: nat): Word
    requires t < 80
  {
    if t < 20 then 0x5a827999 else if t < 40 then 0x6ed9eba1 else if t < 60 then 0x8f1bbcdc else 0xca62c1d6
  }

  /** The constants are the square roots of 2, 3, 5 and 10 times two to the 30, rounded down. */
  lemma ConstantsAreRoots(t: nat)
    requires t < 80
    ensures var k, c := K(t) as int, if t < 20 then 2 else if t < 40 then 3 else if t < 60 then 5 else 10;
            k * k <= c * 0x1000_0000_0000_0000 < (k + 1) * (k + 1)
  {
    if t < 20 {
      assert K(t) as int == 0x5a827999;
    } else if t < 40 {
      assert K(t) as int == 0x6ed9eba1;
    } else if t < 60 {
      assert K(t) as int == 0x8f1bbcdc;
    } else {
      assert K(t) as int == 0xca62c1d6;
    }
  }

  // Section 5.1.1: padding.

  /** `p` is `m`, a one bit, the least number of zero bits that leaves eight bytes to a
      multiple of 64, and the length of `m` in bits. */
  ghost predicate IsPadding(m: seq<byte>, p: seq<byte>) {
    exists zeros: nat | zeros < 64 ::
      Fills(|m|, zeros) && p == m + [0x80] + Zeros(zeros) + BigBytes8(8 * |m| % TWO_64)
  }

  predicate Fills(length: nat, zeros: nat) {
    (length + 1 + zeros) % 64 == 56
  }

  function ZerosNeeded(length: nat): (zeros: nat)
    ensures zeros < 64
  {
    (119 - length % 64) % 64
  }

  lemma FillsExactly(length: nat, zeros: nat)
    requires zeros < 64
    ensures Fills(length, zeros) <==> zeros == ZerosNeeded(length)
  {
  }

  function Zeros(n: nat): seq<byte> {
    seq(n, _ => 0)
  }

  function Pad(m: seq<byte>): seq<byte> {
    m + [0x80] + Zeros(ZerosNeeded(|m|)) + BigBytes8(8 * |m| % TWO_64)
  }

  // Section 5.3.1: the initial hash value, and section 6.1.2: the computation.

  datatype Hash = Hash(a: Word, b: Word, c: Word, d: Word, e: Word)

  const H0 := Hash(0x67452301, 0xefcdab89, 0x98badcfe, 0x10325476, 0xc3d2e1f0)

  /** Lowest byte first, the initial value counts the sixteen digits up, down, and up and down. */
  lemma InitialValueCounts()
    ensures H0.a as int == Little([0x01, 0x23, 0x45, 0x67]) && H0.b as int == Little([0x89, 0xab, 0xcd, 0xef])
    ensures H0.c as int == Little([0xfe, 0xdc, 0xba, 0x98]) && H0.d as int == Little([0x76, 0x54, 0x32, 0x10])
    ensures H0.e as int == Little([0xf0, 0xe1, 0xd2, 0xc3])
  {
    FourBytes(0x01, 0x23, 0x45, 0x67);
    FourBytes(0x89, 0xab, 0xcd, 0xef);
    FourBytes(0xfe, 0xdc, 0xba, 0x98);
    FourBytes(0x76, 0x54, 0x32, 0x10);
    FourBytes(0xf0, 0xe1, 0xd2, 0xc3);
  }

  /** Step 1: the message schedule of a block. */
  function W(block: seq<byte>, t: nat): Word
    requires |block| == 64 && t < 80
  {
    if t < 16 then BigWord(block[4 * t..4 * t + 4])
    else RotL(1, Xor(Xor(Xor(W(block, t - 3), W(block, t - 8)), W(block, t - 14)), W(block, t - 16)))
  }

  /** Step 3: the working variables after `t` rounds. */
  function Rounds(h: Hash, block: seq<byte>, t: nat): Hash
    requires |block| == 64 && t <= 80
  {
    if t == 0 then h
    else
      var v := Rounds(h, block, t - 1);
      var temp := Add(Add(Add(Add(RotL(5, v.a), F(t - 1, v.b, v.c, v.d)), v.e), K(t - 1)), W(block, t - 1));
      Hash(temp, v.a, RotL(30, v.b), v.c, v.d)
  }

  function Sum(h: Hash, v: Hash): Hash {
    Hash(Add(h.a, v.a), Add(h.b, v.b), Add(h.c, v.c), Add(h.d, v.d), Add(h.e, v.e))
  }

  /** The hash value after the first `n` blocks. */
  function HashAfter(message: seq<byte>, n: nat): Hash
    requires 64 * n <= |message|
  {
    if n == 0 then H0
    else
      var h := HashAfter(message, n - 1);
      Sum(h, Rounds(h, message[64 * (n - 1)..64 * n], 80))
  }

  function HashBytes(h: Hash): (r: seq<byte>)
    ensures |r| == 20
  {
    BigWordBytes(h.a) + BigWordBytes(h.b) + BigWordBytes(h.c) + BigWordBytes(h.d) + BigWordBytes(h.e)
  }

  function Digest(m: seq<byte>): (r: seq<byte>)
    ensures |r| == 20
  {
    HashBytes(HashAfter(Pad(m), |Pad(m)| / 64))
  }

  // ---- properties of the padding

  /** Padding is unique, minimal and whole blocks. */
  lemma PadIsThePadding(m: seq<byte>, p: seq<byte>)
    ensures IsPadding(m, p) <==> p == Pad(m)
    ensures |Pad(m)| % 64 == 0 && |m| + 9 <= |Pad(m)| < |m| + 9 + 64
  {
    hide Fills, ZerosNeeded, Zeros, BigBytes8;
    PadLength(m);
    FillsExactly(|m|, ZerosNeeded(|m|));
    forall zeros: nat | zeros < 64 && Fills(|m|, zeros) ensures zeros == ZerosNeeded(|m|) {
      FillsExactly(|m|, zeros);
    }
  }

  lemma PadLength(m: seq<byte>)
    ensures |Pad(m)| == |m| + 1 + ZerosNeeded(|m|) + 8
    ensures |Pad(m)| % 64 == 0
  {
    hide ZerosNeeded, BigBytes8;
    FillsExactly(|m|, ZerosNeeded(|m|));
  }

  /** Different messages are padded differently, however long they are: the length field
      alone would repeat after 2 to the 61 bytes. */
  lemma PadIsInjective(a: seq<byte>, b: seq<byte>)
    requires Pad(a) == Pad(b)
    ensures a == b
  {
    if |a| < |b| { LongerPadsDifferently(a, b); }
    if |b| < |a| { LongerPadsDifferently(b, a); }
    assert a == Pad(a)[..|a|] && b == Pad(b)[..|b|];
  }

  lemma LongerPadsDifferently(a: seq<byte>, b: seq<byte>)
    requires |a| < |b|
    ensures Pad(a) != Pad(b)
  {
    if |Pad(a)| == |Pad(b)| {
      PadIsThePadding(a, Pad(a));
      PadIsThePadding(b, Pad(b));
      assert Pad(b)[|b|] == 0x80;
      assert Pad(a)[|b|] == 0;
    }
  }
}
