/**
 Bit strings. Deflate packs bits starting at the low end of each byte, so a number is sent
 least significant bit first, except for a Huffman code, whose most significant bit goes first.
 */
module Bits {
  import opened Shift

  type Bits = seq<bool>
  type byte = x: int | 0 <= x < 256

  function Bit(b: bool): (r: nat)
  {
    if b then 1 else 0
  }

  /** The low n bits of v, least significant bit first. */
  function BitsOf(v: nat, n: nat): (b: Bits)
    ensures |b| == n
  {
    if n == 0 then [] else [v % 2 == 1] + BitsOf(v / 2, n - 1)
  }

  /** The number whose bits, least significant first, are b. */
  function ValOf(b: Bits): (v: nat)
    ensures v < Pow2(|b|)
  {
    if b == [] then 0 else Bit(b[0]) + 2 * ValOf(b[1..])
  }

  /** The low n bits of c, most significant bit first: how a Huffman code is sent. */
  function CodeBits(c: nat, n: nat): (b: Bits)
    ensures |b| == n
  {
    if n == 0 then [] else CodeBits(c / 2, n - 1) + [c % 2 == 1]
  }

  /** The low n bits of v in reverse order. */
  function Rev(v: nat, n: nat): (r: nat)
    ensures r < Pow2(n)
  {
    if n == 0 then 0 else (if v % 2 == 1 then Pow2(n - 1) else 0) + Rev(v / 2, n - 1)
  }

  lemma {:induction false} ValOfBitsOf(v: nat, n: nat)
    ensures ValOf(BitsOf(v, n)) == Low(v, n)
  {
    if n > 0 {
      ValOfBitsOf(v / 2, n - 1);
      assert BitsOf(v, n)[1..] == BitsOf(v / 2, n - 1);
    }
  }

  lemma {:induction false} BitsOfValOf(b: Bits)
    ensures BitsOf(ValOf(b), |b|) == b
  {
    if b != [] {
      BitsOfValOf(b[1..]);
      assert b == [b[0]] + b[1..];
    }
  }

  lemma {:induction false} ValOfAppend(a: Bits, b: Bits)
    ensures ValOf(a + b) == ValOf(a) + Shl(ValOf(b), |a|)
  {
    if a == [] {
      assert a + b == b;
    } else {
      ValOfAppend(a[1..], b);
      assert (a + b)[1..] == a[1..] + b;
    }
  }

  lemma {:induction false} BitsOfAppend(v: nat, m: nat, n: nat)
    ensures BitsOf(v, m + n) == BitsOf(v, m) + BitsOf(Shr(v, m), n)
  {
    if m > 0 {
      BitsOfAppend(v / 2, m - 1, n);
    }
  }

  lemma {:induction false} BitsOfLow(v: nat, n: nat)
    ensures BitsOf(Low(v, n), n) == BitsOf(v, n)
  {
    ValOfBitsOf(v, n);
    BitsOfValOf(BitsOf(v, n));
  }

  // ---------- reversal ----------

  /** Reversal is what separates the two bit orders. */
  lemma {:induction false} ValOfCodeBits(c: nat, n: nat)
    ensures ValOf(CodeBits(c, n)) == Rev(c, n)
  {
    if n > 0 {
      ValOfCodeBits(c / 2, n - 1);
      ValOfAppend(CodeBits(c / 2, n - 1), [c % 2 == 1]);
      assert ValOf([c % 2 == 1]) == c % 2;
      ShlOne(n - 1);
    }
  }

  /** Sending the reversed code least significant bit first sends the code most significant bit first. */
  lemma BitsOfRev(c: nat, n: nat)
    ensures BitsOf(Rev(c, n), n) == CodeBits(c, n)
  {
    ValOfCodeBits(c, n);
    BitsOfValOf(CodeBits(c, n));
  }

  lemma RevStep(v: nat, n: nat)
    requires n > 0
    ensures Rev(v, n) == (if v % 2 == 1 then Pow2(n - 1) else 0) + Rev(v / 2, n - 1)
  {
  }

  lemma ShlHalf(a: nat, b: nat, n: nat)
    requires n > 0
    ensures (Shl(a, n) + b) % 2 == b % 2 && (Shl(a, n) + b) / 2 == Shl(a, n - 1) + b / 2
  {
    assert Shl(a, n) == 2 * Shl(a, n - 1);
  }

  /** The bit on top, shifted. */
  lemma ShlTop(bit: bool, x: nat, m: nat, n: nat)
    ensures Shl((if bit then Pow2(n) else 0) + x, m) == (if bit then Pow2(m + n) else 0) + Shl(x, m)
  {
    hide Shl, Pow2;
    ShlAdd(if bit then Pow2(n) else 0, x, m);
    ShlPow2(n, m);
    ShlOne(m);
  }

  lemma {:induction false} RevSplit(a: nat, m: nat, b: nat, n: nat)
    requires b < Pow2(n)
    ensures Rev(Shl(a, n) + b, m + n) == Rev(a, m) + Shl(Rev(b, n), m)
  {
    hide Rev, Shl, Pow2;
    if n == 0 {
      NothingBelow(a, m, b);
    } else {
      HalfFits(b, n);
      ShlHalf(a, b, n);
      RevStep(Shl(a, n) + b, m + n);
      RevStep(b, n);
      RevSplit(a, m, b / 2, n - 1);
      ShlTop(b % 2 == 1, Rev(b / 2, n - 1), m, n - 1);
    }
  }

  lemma NothingBelow(a: nat, m: nat, b: nat)
    requires b < Pow2(0)
    ensures Rev(Shl(a, 0) + b, m + 0) == Rev(a, m) + Shl(Rev(b, 0), m)
  {
    ShlOne(m);
  }

  lemma HalfFits(b: nat, n: nat)
    requires n > 0 && b < Pow2(n)
    ensures b / 2 < Pow2(n - 1)
  {
  }

  lemma {:induction false} RevRev(v: nat, n: nat)
    requires v < Pow2(n)
    ensures Rev(Rev(v, n), n) == v
  {
    if n > 0 {
      RevRev(v / 2, n - 1);
      // Rev(v, n) is the lowest bit of v on top of the reversal of the rest
      var low := v % 2;
      ShlOne(n - 1);
      RevSplit(low, 1, Rev(v / 2, n - 1), n - 1);
      assert Rev(low, 1) == low by { assert Rev(low / 2, 0) == 0; assert Pow2(0) == 1; }
      assert Shl(v / 2, 1) == 2 * Shl(v / 2, 0) == 2 * (v / 2);
    }
  }

  lemma RevInjective(a: nat, b: nat, n: nat)
    requires a < Pow2(n) && b < Pow2(n) && Rev(a, n) == Rev(b, n)
    ensures a == b
  {
    RevRev(a, n);
    RevRev(b, n);
  }

  /** The low m bits of a reversed (m + n)-bit code are its first m bits, reversed; the rest follow. */
  lemma RevHigh(c: nat, m: nat, n: nat)
    requires c < Pow2(m + n)
    ensures Shr(c, n) < Pow2(m)
    ensures Low(Rev(c, m + n), m) == Rev(Shr(c, n), m)
    ensures Shr(Rev(c, m + n), m) == Rev(Low(c, n), n)
  {
    ShrBound(c, m, n);
    Split(c, n);
    RevSplit(Shr(c, n), m, Low(c, n), n);
    Join(Rev(Low(c, n), n), Rev(Shr(c, n), m), m);
  }

  lemma {:induction false} RevZero(n: nat)
    ensures Rev(0, n) == 0
  {
    if n > 0 {
      RevZero(n - 1);
    }
  }

  /** A code with n zero bits appended has the same reversal. */
  lemma RevAppendZeros(c: nat, m: nat, n: nat)
    ensures Rev(Shl(c, n), m + n) == Rev(c, m)
  {
    RevZero(n);
    ShlOne(m);
    RevSplit(c, m, 0, n);
  }
}
