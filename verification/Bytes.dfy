/** Bytes, and the numbers written in them. */
module Bytes {
  type byte = b: int | 0 <= b < 256

  const TWO_16 := 0x1_0000
  const TWO_32 := 0x1_0000_0000
  const TWO_64 := 0x1_0000_0000_0000_0000

  /** The number that little-endian bytes spell. */
  function Little(bytes: seq<byte>): (n: nat) {
    if bytes == [] then 0 else bytes[0] + 256 * Little(bytes[1..])
  }

  /** The `width` lowest bytes of `n`, lowest first. */
  function LittleBytes(n: nat, width: nat): (r: seq<byte>)
    ensures |r| == width
  {
    if width == 0 then [] else [n % 256] + LittleBytes(n / 256, width - 1)
  }

  function Power256(width: nat): (p: nat)
    ensures p > 0
  {
    if width == 0 then 1 else 256 * Power256(width - 1)
  }

  lemma Powers()
    ensures Power256(2) == TWO_16 && Power256(4) == TWO_32 && Power256(8) == TWO_64
  {
    assert Power256(1) == 256;
    assert Power256(2) == 256 * Power256(1);
    assert Power256(3) == 256 * Power256(2);
    assert Power256(4) == 256 * Power256(3);
    assert Power256(5) == 256 * Power256(4);
    assert Power256(6) == 256 * Power256(5);
    assert Power256(7) == 256 * Power256(6);
    assert Power256(8) == 256 * Power256(7);
  }

  lemma {:induction false} LittleIsBounded(bytes: seq<byte>)
    ensures Little(bytes) < Power256(|bytes|)
  {
    if bytes != [] { LittleIsBounded(bytes[1..]); }
  }

  lemma {:induction false} LittleRoundTrip(n: nat, width: nat)
    requires n < Power256(width)
    ensures Little(LittleBytes(n, width)) == n
  {
    if width > 0 {
      LittleRoundTrip(n / 256, width - 1);
      assert LittleBytes(n, width)[1..] == LittleBytes(n / 256, width - 1);
    }
  }

  /** The eight bytes of `n`, highest first. */
  function BigBytes8(n: nat): (r: seq<byte>)
    requires n < TWO_64
    ensures |r| == 8
  {
    [n / 0x100_0000_0000_0000, n / 0x1_0000_0000_0000 % 256, n / 0x100_0000_0000 % 256, n / 0x1_0000_0000 % 256,
     n / 0x100_0000 % 256, n / 0x1_0000 % 256, n / 0x100 % 256, n % 256]
  }

  /** The 32-bit word spelled by four big-endian bytes. */
  function BigWord(b: seq<byte>): bv32
    requires |b| == 4
  {
    (b[0] as int * 0x100_0000 + b[1] as int * 0x1_0000 + b[2] as int * 0x100 + b[3] as int) as bv32
  }

  function BigWordBytes(word: bv32): (r: seq<byte>)
    ensures |r| == 4
  {
    var n := word as int;
    [n / 0x100_0000 % 256, n / 0x1_0000 % 256, n / 0x100 % 256, n % 256]
  }

  lemma FourBytes(a: byte, b: byte, c: byte, d: byte)
    ensures Little([a, b, c, d]) == d as int * 0x100_0000 + c as int * 0x1_0000 + b as int * 0x100 + a as int
  {
    assert [a, b, c, d][1..] == [b, c, d] && [b, c, d][1..] == [c, d] && [c, d][1..] == [d] && [d][1..] == [];
    assert Little([d]) == d;
    assert Little([c, d]) == c as int + 256 * d as int;
    assert Little([b, c, d]) == b as int + 256 * (c as int + 256 * d as int);
  }

  lemma BytesOfWord(n: nat)
    requires n < TWO_32
    ensures n / 0x100_0000 % 256 * 0x100_0000 + n / 0x1_0000 % 256 * 0x1_0000 + n / 0x100 % 256 * 0x100 + n % 256 == n
  {
    var q := n / 0x100;
    var r := q / 0x100;
    assert r == n / 0x1_0000 && r / 0x100 == n / 0x100_0000;
  }

  /** A word's bytes spell it, highest first. */
  lemma BigWordBytesSpell(word: bv32)
    ensures var b := BigWordBytes(word); Little([b[3], b[2], b[1], b[0]]) == word as int
  {
    hide Little;
    var n, b := word as int, BigWordBytes(word);
    FourBytes(b[3], b[2], b[1], b[0]);
    BytesOfWord(n);
  }

  lemma BigWordRoundTrip(word: bv32)
    ensures BigWord(BigWordBytes(word)) == word
  {
    hide BigWordBytes, Little;
    var b := BigWordBytes(word);
    BigWordBytesSpell(word);
    FourBytes(b[3], b[2], b[1], b[0]);
  }
}
