/**
 The rolling hash of deflate.c (UPDATE_HASH): after three bytes it depends on those three bytes alone, and tells the
 third apart.
 */
module Hashing {
  import opened Shift
  import opened Bits

  /** Exclusive or. */
  function Xor(a: nat, b: nat): (r: nat)
    decreases a + b
  {
    if a == 0 then b else if b == 0 then a
    else (if a % 2 != b % 2 then 1 else 0) + 2 * Xor(a / 2, b / 2)
  }

  lemma BitAndRest(d: nat, x: nat)
    requires d < 2
    ensures (d + 2 * x) % 2 == d && (d + 2 * x) / 2 == x
  {
  }

  lemma XorUnfold(a: nat, b: nat)
    requires a != 0 && b != 0
    ensures Xor(a, b) == (if a % 2 != b % 2 then 1 else 0) + 2 * Xor(a / 2, b / 2)
  {
  }

  lemma XorNothing(a: nat)
    ensures Xor(0, a) == a == Xor(a, 0)
  {
  }

  lemma XorStep(a: nat, b: nat)
    ensures Xor(a, b) % 2 == (if a % 2 != b % 2 then 1 else 0) && Xor(a, b) / 2 == Xor(a / 2, b / 2)
  {
    hide Xor;
    if a == 0 {
      XorNothing(b);
      XorNothing(b / 2);
    } else if b == 0 {
      XorNothing(a);
      XorNothing(a / 2);
    } else {
      XorUnfold(a, b);
      BitAndRest(if a % 2 != b % 2 then 1 else 0, Xor(a / 2, b / 2));
    }
  }

  lemma {:induction false} LowXor(a: nat, b: nat, n: nat)
    ensures Low(Xor(a, b), n) == Xor(Low(a, n), Low(b, n))
    decreases n
  {
    if n > 0 {
      XorStep(a, b);
      LowXor(a / 2, b / 2, n - 1);
      XorStep(Low(a, n), Low(b, n));
      assert Low(a, n) / 2 == Low(a / 2, n - 1) && Low(b, n) / 2 == Low(b / 2, n - 1);
    }
  }

  lemma XorDouble(x: nat, y: nat)
    ensures Xor(2 * x, 2 * y) == 2 * Xor(x, y)
  {
    hide Xor;
    XorStep(2 * x, 2 * y);
  }

  lemma {:induction false} ShlXor(a: nat, b: nat, n: nat)
    ensures Shl(Xor(a, b), n) == Xor(Shl(a, n), Shl(b, n))
    decreases n
  {
    hide Xor;
    if n > 0 {
      ShlXor(a, b, n - 1);
      XorDouble(Shl(a, n - 1), Shl(b, n - 1));
    }
  }

  lemma {:induction false} XorAssoc(a: nat, b: nat, c: nat)
    ensures Xor(Xor(a, b), c) == Xor(a, Xor(b, c))
    decreases a + b + c
  {
    if a > 0 && b > 0 && c > 0 {
      XorStep(a, b);
      XorStep(b, c);
      XorStep(Xor(a, b), c);
      XorStep(a, Xor(b, c));
      XorAssoc(a / 2, b / 2, c / 2);
    }
  }

  lemma {:induction false} XorCancel(a: nat, b: nat, c: nat)
    requires Xor(a, b) == Xor(a, c)
    ensures b == c
    decreases a + b + c
  {
    if a > 0 {
      XorStep(a, b);
      XorStep(a, c);
      XorCancel(a / 2, b / 2, c / 2);
    }
  }

  lemma {:induction false} LowOfShl(x: nat, s: nat, n: nat)
    requires n <= s
    ensures Low(Shl(x, s), n) == 0
    decreases n
  {
    if n > 0 {
      assert Shl(x, s) == 2 * Shl(x, s - 1);
      LowOfShl(x, s - 1, n - 1);
    }
  }

  lemma LowDouble(a: nat, n: nat)
    requires n > 0
    ensures Low(2 * a, n) == 2 * Low(a, n - 1)
  {
  }

  lemma ShlDouble(x: nat, s: nat)
    requires s > 0
    ensures Shl(x, s) == 2 * Shl(x, s - 1)
  {
  }

  lemma {:induction false} LowShlLow(x: nat, s: nat, n: nat)
    ensures Low(Shl(Low(x, n), s), n) == Low(Shl(x, s), n)
    decreases s
  {
    hide Low, Shl;
    var y := Low(x, n);
    if s == 0 {
      ShlNone(y);
      ShlNone(x);
      LowLow(x, n, n);
    } else if n > 0 {
      ShlDouble(y, s);
      ShlDouble(x, s);
      LowDouble(Shl(y, s - 1), n);
      LowDouble(Shl(x, s - 1), n);
      LowShlLow(x, s - 1, n);
      LowLow(Shl(y, s - 1), n - 1, n);
      LowLow(Shl(x, s - 1), n - 1, n);
    } else {
      LowNone(Shl(y, s));
      LowNone(Shl(x, s));
    }
  }

  lemma ShlNone(x: nat)
    ensures Shl(x, 0) == x
  {
  }

  lemma LowNone(x: nat)
    ensures Low(x, 0) == 0
  {
  }

  /** Hash table size 2^bits, and the shift per byte: ceil(bits / 3). */
  datatype HashParams = HashParams(bits: nat, shift: nat)

  predicate GoodHash(p: HashParams)
  {
    8 <= p.bits <= 16 && p.shift == (p.bits + 2) / 3
  }

  /** UPDATE_HASH. */
  function UpdateHash(p: HashParams, h: nat, c: byte): (r: nat)
    ensures r < Pow2(p.bits)
  {
    Low(Xor(Shl(h, p.shift), c), p.bits)
  }

  /** The hash of three bytes. */
  function Hash(p: HashParams, b0: byte, b1: byte, b2: byte): (r: nat)
    ensures r < Pow2(p.bits)
  {
    Low(Xor(Xor(Shl(b0, 2 * p.shift), Shl(b1, p.shift)), b2), p.bits)
  }

  /** The running hash h stands right behind the bytes b0 and b1. */
  ghost predicate Primed(p: HashParams, h: nat, b0: byte, b1: byte)
  {
    Low(Shl(h, p.shift), p.bits) == Low(Xor(Shl(b0, 2 * p.shift), Shl(b1, p.shift)), p.bits)
  }

  /** Two bytes from scratch. */
  lemma PrimedStart(p: HashParams, b0: byte, b1: byte)
    ensures Primed(p, UpdateHash(p, b0, b1), b0, b1)
  {
    var s, n := p.shift, p.bits;
    LowShlLow(Xor(Shl(b0, s), b1), s, n);
    ShlXor(Shl(b0, s), b1, s);
    ShlShl(b0, s, s);
  }

  /** The next byte makes the hash of the last three, and what came before is forgotten. */
  lemma PrimedUpdate(p: HashParams, h: nat, b0: byte, b1: byte, b2: byte)
    requires Primed(p, h, b0, b1) && GoodHash(p)
    ensures UpdateHash(p, h, b2) == Hash(p, b0, b1, b2)
    ensures Primed(p, Hash(p, b0, b1, b2), b1, b2)
  {
    hide Xor, Shl, Low, Pow2;
    var s, n := p.shift, p.bits;
    var x := Xor(Shl(b0, 2 * s), Shl(b1, s));
    LowXor(Shl(h, s), b2, n);
    LowXor(x, b2, n);
    LowShlLow(Xor(x, b2), s, n);
    ShlXor(x, b2, s);
    ShlXor(Shl(b0, 2 * s), Shl(b1, s), s);
    ShlShl(b0, 2 * s, s);
    ShlShl(b1, s, s);
    var y := Xor(Shl(b1, 2 * s), Shl(b2, s));
    XorAssoc(Shl(b0, 3 * s), Shl(b1, 2 * s), Shl(b2, s));
    LowXor(Shl(b0, 3 * s), y, n);
    LowOfShl(b0, 3 * s, n);
    XorNothing(Low(y, n));
  }

  /** Strings with equal hashes and equal first two bytes have equal third bytes. */
  lemma ThirdByte(p: HashParams, b0: byte, b1: byte, b2: byte, c2: byte)
    requires GoodHash(p) && Hash(p, b0, b1, b2) == Hash(p, b0, b1, c2)
    ensures b2 == c2
  {
    var n := p.bits;
    var x := Xor(Shl(b0, 2 * p.shift), Shl(b1, p.shift));
    LowXor(x, b2, n);
    LowXor(x, c2, n);
    XorCancel(Low(x, n), Low(b2, n), Low(c2, n));
    Pow2Monotone(8, n);
    assert Pow2(8) == 256 by { assert Pow2(4) == 16; }
    Small(b2, n);
    Small(c2, n);
  }
}
