/** The hash as the compiler computes it. */
module Sha1 {
  import opened Bytes
  import opened Fips180

  lemma ChooseWithOr(b: Word, c: Word, d: Word)
    ensures Or(And(b, c), And(Not(b), d)) == Ch(b, c, d)
  {
  }

  lemma MajorityWithOr(b: Word, c: Word, d: Word)
    ensures Or(Or(And(b, c), And(b, d)), And(c, d)) == Maj(b, c, d)
  {
  }

  /** One buffer of 80 words serves every block. */
  method Sha1(data: seq<byte>) returns (out: seq<byte>)
    ensures out == Digest(data)
  {
    hide Sum, Rounds, HashBytes, Pad;
    var message := PadMessage(data);
    PadIsThePadding(data, message);
    var h := H0;
    var w := new Word[80];
    var n := 0;
    while 64 * n < |message|
      invariant 64 * n <= |message| && h == HashAfter(message, n)
    {
      var chunk := message[64 * n..64 * (n + 1)];
      Schedule(chunk, w);
      var v := Compress(h, chunk, w);
      h := Sum(h, v);
      n := n + 1;
    }
    out := HashBytes(h);
  }

  method PadMessage(data: seq<byte>) returns (message: seq<byte>)
    ensures message == Pad(data)
  {
    hide ZerosNeeded;
    message := data + [0x80];
    ghost var zeros := 0;
    while |message| % 64 != 56
      invariant message == data + [0x80] + Zeros(zeros) && zeros <= ZerosNeeded(|data|)
      decreases ZerosNeeded(|data|) - zeros
    {
      FillsExactly(|data|, zeros);
      message, zeros := message + [0], zeros + 1;
    }
    FillsExactly(|data|, zeros);
    message := message + BigBytes8(8 * |data| % TWO_64);
  }

  method Schedule(chunk: seq<byte>, w: array<Word>)
    requires |chunk| == 64 && w.Length == 80
    modifies w
    ensures forall t | 0 <= t < 80 :: w[t] == W(chunk, t)
  {
    hide RotL, Xor, BigWord;
    for i := 0 to 16
      invariant forall t | 0 <= t < i :: w[t] == W(chunk, t)
    {
      w[i] := BigWord(chunk[4 * i..4 * i + 4]);
    }
    for i := 16 to 80
      invariant forall t | 0 <= t < i :: w[t] == W(chunk, t)
    {
      w[i] := RotL(1, Xor(Xor(Xor(w[i - 3], w[i - 8]), w[i - 14]), w[i - 16]));
    }
  }

  method Compress(h: Hash, chunk: seq<byte>, w: array<Word>) returns (v: Hash)
    requires |chunk| == 64 && w.Length == 80 && forall t | 0 <= t < 80 :: w[t] == W(chunk, t)
    ensures v == Rounds(h, chunk, 80)
  {
    hide F, K, W, RotL, Add;
    var a, b, c, d, e := h.a, h.b, h.c, h.d, h.e;
    for i := 0 to 80
      invariant Hash(a, b, c, d, e) == Rounds(h, chunk, i)
    {
      var f, k := RoundTerm(i, b, c, d);
      var temp := Add(Add(Add(Add(RotL(5, a), f), e), k), w[i]);
      e := d;
      d := c;
      c := RotL(30, b);
      b := a;
      a := temp;
    }
    return Hash(a, b, c, d, e);
  }

  method RoundTerm(i: nat, b: Word, c: Word, d: Word) returns (f: Word, k: Word)
    requires i < 80
    ensures f == F(i, b, c, d) && k == K(i)
  {
    hide And, Or, Xor, Not, Ch, Maj;
    if i <= 19 {
      ChooseWithOr(b, c, d);
      return Or(And(b, c), And(Not(b), d)), 0x5A827999;
    } else if i <= 39 {
      return Xor(Xor(b, c), d), 0x6ED9EBA1;
    } else if i <= 59 {
      MajorityWithOr(b, c, d);
      return Or(Or(And(b, c), And(b, d)), And(c, d)), 0x8F1BBCDC;
    } else {
      return Xor(Xor(b, c), d), 0xCA62C1D6;
    }
  }
}
