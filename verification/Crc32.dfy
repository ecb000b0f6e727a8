/**
 The CRC-32 of crc32.c: the tables of make_crc_table, the sliced loops of crc32_little and crc32_big,
 and crc32_combine by powers of matrices over GF(2).
 */
module Crc32 {
  const POLY: bv32 := 0xedb88320

  /** Exclusive or: the addition of polynomials over GF(2). */
  function Xor(x: bv32, y: bv32): bv32
  {
    x ^ y
  }

  function Not(x: bv32): bv32
  {
    !x
  }

  function Low8(x: bv32): bv32
  {
    x & 0xff
  }

  /** x shifted down by n bytes. */
  function Down(x: bv32, n: nat): bv32
  {
    if n == 0 then x else if n == 1 then x >> 8 else if n == 2 then x >> 16 else if n == 3 then x >> 24 else 0
  }

  /** The register after one bit 0: multiplied by x, modulo the polynomial. */
  function Zero(c: bv32): bv32
  {
    if c & 1 == 1 then POLY ^ (c >> 1) else c >> 1
  }

  /** The register after n bits 0. */
  function Zeros(c: bv32, n: nat): bv32
    decreases n
  {
    if n == 0 then c else Zeros(Zero(c), n - 1)
  }

  /** The register after the low n bits of b, the lowest first, one bit at a time. */
  function Serial(c: bv32, b: bv8, n: nat): bv32
    decreases n
  {
    if n == 0 then c else Serial(Zero(Xor(c, (b & 1) as bv32)), b >> 1, n - 1)
  }

  /** The register after the bytes of buf. */
  function Fold(c: bv32, buf: seq<bv8>): bv32
    decreases |buf|
  {
    if buf == [] then c else Fold(Serial(c, buf[0], 8), buf[1..])
  }

  /** The CRC of section 8 of RFC 1952: the register starts and ends inverted. */
  function Crc(crc: bv32, buf: seq<bv8>): bv32
  {
    Not(Fold(Not(crc), buf))
  }

  // ---------- the register is linear ----------

  lemma XorLaws(x: bv32, y: bv32, z: bv32)
    ensures Xor(Xor(x, y), z) == Xor(x, Xor(y, z)) && Xor(x, y) == Xor(y, x)
    ensures Xor(x, x) == 0 && Xor(x, 0) == x && Xor(0, x) == x
  {
  }

  lemma ShiftXor(x: bv32, y: bv32)
    ensures (x ^ y) >> 1 == (x >> 1) ^ (y >> 1) && (x ^ y) & 1 == (x & 1) ^ (y & 1)
    ensures x & 1 == 0 || x & 1 == 1
  {
  }

  lemma Cancel(p: bv32, x: bv32, y: bv32)
    ensures p ^ (x ^ y) == (p ^ x) ^ y == x ^ (p ^ y) && x ^ y == (p ^ x) ^ (p ^ y)
  {
  }

  lemma ZeroXor(x: bv32, y: bv32)
    ensures Zero(x ^ y) == Zero(x) ^ Zero(y)
  {
    ShiftXor(x, y);
    ShiftXor(y, x);
    Cancel(POLY, x >> 1, y >> 1);
  }

  lemma ZeroOfXor(x: bv32, y: bv32)
    ensures Zero(Xor(x, y)) == Xor(Zero(x), Zero(y))
  {
    hide Zero;
    ZeroXor(x, y);
  }

  lemma {:induction false} ZerosOfXor(x: bv32, y: bv32, n: nat)
    ensures Zeros(Xor(x, y), n) == Xor(Zeros(x, n), Zeros(y, n))
    decreases n
  {
    hide Zero, Xor;
    if n > 0 {
      ZeroOfXor(x, y);
      ZerosOfXor(Zero(x), Zero(y), n - 1);
    }
  }

  lemma {:induction false} ZerosAdd(x: bv32, m: nat, n: nat)
    ensures Zeros(Zeros(x, m), n) == Zeros(x, m + n)
    decreases m
  {
    hide Zero;
    if m > 0 {
      ZerosAdd(Zero(x), m - 1, n);
    }
  }

  /** Bits that are all 0 are only shifted out. */
  lemma EvenZero(x: bv32)
    requires x & 1 == 0
    ensures Zero(x) == x >> 1
  {
  }

  lemma ByteOut(x: bv32)
    requires x & 0xff == 0
    ensures Zeros(x, 8) == x >> 8
  {
    hide Zero;
    var x1 := x >> 1;
    var x2 := x1 >> 1;
    var x3 := x2 >> 1;
    var x4 := x3 >> 1;
    var x5 := x4 >> 1;
    var x6 := x5 >> 1;
    var x7 := x6 >> 1;
    EvenZero(x);
    EvenZero(x1);
    EvenZero(x2);
    EvenZero(x3);
    EvenZero(x4);
    EvenZero(x5);
    EvenZero(x6);
    EvenZero(x7);
    assert Zeros(x, 8) == Zeros(x2, 6) == Zeros(x4, 4);
  }

  // ---------- a byte at a time ----------

  lemma LowBit(b: bv8)
    ensures b as bv32 == Xor((b & 1) as bv32, ((b >> 1) as bv32) << 1)
    ensures (((b >> 1) as bv32) << 1) & 1 == 0 && (((b >> 1) as bv32) << 1) >> 1 == (b >> 1) as bv32
  {
  }

  /** b has no more than n bits. */
  predicate Fits(b: bv8, n: nat)
  {
    if n == 0 then b == 0 else Fits(b >> 1, n - 1)
  }

  lemma EightBits(b: bv8)
    ensures Fits(b, 8)
  {
    var b1 := b >> 1;
    var b2 := b1 >> 1;
    var b3 := b2 >> 1;
    var b4 := b3 >> 1;
    var b5 := b4 >> 1;
    var b6 := b5 >> 1;
    var b7 := b6 >> 1;
    assert b7 >> 1 == 0;
    assert Fits(b6, 2);
    assert Fits(b4, 4);
    assert Fits(b2, 6);
  }

  /** The bits of a byte can be added to the register all at once. */
  lemma {:induction false} SerialIs(c: bv32, b: bv8, n: nat)
    requires Fits(b, n)
    ensures Serial(c, b, n) == Zeros(Xor(c, b as bv32), n)
    decreases n
  {
    hide Zero, Xor;
    if n == 0 {
      XorLaws(c, c, c);
    } else {
      var lo, hi := (b & 1) as bv32, (b >> 1) as bv32;
      SerialIs(Zero(Xor(c, lo)), b >> 1, n - 1);
      LowBit(b);
      XorLaws(c, lo, hi << 1);
      ZeroOfXor(Xor(c, lo), hi << 1);
      EvenZero(hi << 1);
    }
  }

  lemma ByteIs(c: bv32, b: bv8)
    ensures Serial(c, b, 8) == Zeros(Xor(c, b as bv32), 8)
  {
    EightBits(b);
    SerialIs(c, b, 8);
  }

  lemma TwoParts(x: bv32, lo: bv32, hi: bv32, up: bv32)
    requires x == Xor(lo, hi) && Low8(hi) == 0 && Down(hi, 1) == up
    ensures Zeros(x, 8) == Xor(Zeros(lo, 8), up)
  {
    hide Xor, Zeros;
    ZerosOfXor(lo, hi, 8);
    ByteOut(hi);
  }

  function Rest8(x: bv32): bv32
  {
    x & 0xffffff00
  }

  lemma LowAndRest(x: bv32)
    ensures x == Xor(Low8(x), Rest8(x))
  {
  }

  lemma NoLow(x: bv32)
    ensures Low8(Rest8(x)) == 0
  {
  }

  lemma RestDown(x: bv32)
    ensures Down(Rest8(x), 1) == Down(x, 1)
  {
  }

  /** One look-up does eight steps. */
  lemma TableStep(x: bv32)
    ensures Zeros(x, 8) == Xor(Zeros(Low8(x), 8), Down(x, 1))
  {
    hide Xor, Zeros, Low8, Rest8, Down;
    LowAndRest(x);
    NoLow(x);
    RestDown(x);
    TwoParts(x, Low8(x), Rest8(x), Down(x, 1));
  }

  lemma {:induction false} FoldAppend(c: bv32, s: seq<bv8>, t: seq<bv8>)
    ensures Fold(c, s + t) == Fold(Fold(c, s), t)
    decreases |s|
  {
    hide Serial;
    if s == [] {
      assert s + t == t;
    } else {
      assert (s + t)[1..] == s[1..] + t;
      FoldAppend(Serial(c, s[0], 8), s[1..], t);
    }
  }

  lemma FoldOne(c: bv32, s: seq<bv8>, i: nat)
    requires i < |s|
    ensures Fold(c, s[..i + 1]) == Zeros(Xor(Fold(c, s[..i]), s[i] as bv32), 8)
  {
    hide Serial, Zeros, Xor;
    assert s[..i + 1] == s[..i] + [s[i]];
    FoldAppend(c, s[..i], [s[i]]);
    var d := Fold(c, s[..i]);
    assert Fold(d, [s[i]]) == Serial(d, s[i], 8);
    ByteIs(d, s[i]);
  }

  // ---------- four bytes at a time ----------

  /** Four bytes as a little-endian word. */
  function Word(b0: bv8, b1: bv8, b2: bv8, b3: bv8): bv32
  {
    (b0 as bv32) | ((b1 as bv32) << 8) | ((b2 as bv32) << 16) | ((b3 as bv32) << 24)
  }

  lemma WordIs(b0: bv8, b1: bv8, b2: bv8, b3: bv8)
    ensures Word(b0, b1, b2, b3) == Xor(b0 as bv32, Xor((b1 as bv32) << 8, Xor((b2 as bv32) << 16, (b3 as bv32) << 24)))
  {
  }

  lemma WordBytes(x: bv32)
    ensures x == Xor(x & 0xff, Xor(((x >> 8) & 0xff) << 8, Xor(((x >> 16) & 0xff) << 16, (x >> 24) << 24)))
  {
  }

  lemma ShiftedOut(y: bv32)
    ensures y & 0xffffff00 == 0 ==> (y << 8) & 0xff == 0 && (y << 8) >> 8 == y
    ensures y & 0xffffff00 == 0 ==> (y << 16) & 0xff == 0 && (y << 16) >> 8 == y << 8
    ensures y & 0xffffff00 == 0 ==> (y << 24) & 0xff == 0 && (y << 24) >> 8 == y << 16
  {
  }

  /** A byte higher up in the word meets its bits later. */
  lemma Later(y: bv32)
    requires y & 0xffffff00 == 0
    ensures Zeros(y << 8, 8) == y && Zeros(y << 16, 16) == y && Zeros(y << 24, 24) == y
  {
    hide Zeros;
    ShiftedOut(y);
    ByteOut(y << 8);
    ByteOut(y << 16);
    ByteOut(y << 24);
    ZerosAdd(y << 16, 8, 8);
    ZerosAdd(y << 24, 8, 16);
  }

  lemma SmallBytes(x: bv32, b: bv8)
    ensures (x & 0xff) & 0xffffff00 == 0 && (x >> 24) & 0xffffff00 == 0 && (b as bv32) & 0xffffff00 == 0
  {
  }

  function Up(x: bv32, n: nat): bv32
  {
    if n == 0 then x else if n == 1 then x << 8 else if n == 2 then x << 16 else if n == 3 then x << 24 else 0
  }

  lemma WordParts(x: bv32)
    ensures x == Xor(Low8(x), Xor(Up(Low8(Down(x, 1)), 1), Xor(Up(Low8(Down(x, 2)), 2), Up(Low8(Down(x, 3)), 3))))
  {
    hide Xor, Zeros;
    WordBytes(x);
    TopByte(x);
  }

  lemma UpLater(x: bv32)
    ensures Zeros(Up(Low8(x), 1), 8) == Low8(x) && Zeros(Up(Low8(x), 2), 16) == Low8(x)
    ensures Zeros(Up(Low8(x), 3), 24) == Low8(x)
  {
    hide Zeros;
    SmallBytes(x, 0);
    Later(x & 0xff);
  }

  /** The register after a word, from one look-up for each of its bytes. */
  lemma SlicedStep(x: bv32)
    ensures Zeros(x, 32) == Xor(Zeros(Low8(x), 32), Xor(Zeros(Low8(Down(x, 1)), 24),
             Xor(Zeros(Low8(Down(x, 2)), 16), Zeros(Low8(Down(x, 3)), 8))))
  {
    hide Zeros, Xor, Low8, Down, Up;
    var x0, x1, x2, x3 := Low8(x), Up(Low8(Down(x, 1)), 1), Up(Low8(Down(x, 2)), 2), Up(Low8(Down(x, 3)), 3);
    WordParts(x);
    ZerosOfXor(x2, x3, 32);
    ZerosOfXor(x1, Xor(x2, x3), 32);
    ZerosOfXor(x0, Xor(x1, Xor(x2, x3)), 32);
    UpLater(Down(x, 1));
    UpLater(Down(x, 2));
    UpLater(Down(x, 3));
    ZerosAdd(x1, 8, 24);
    ZerosAdd(x2, 16, 16);
    ZerosAdd(x3, 24, 8);
  }

  lemma TopByte(x: bv32)
    ensures (x >> 24) & 0xff == x >> 24
  {
  }

  /** Bytes added in turn are bytes added at once, shifted up. */
  lemma AddLater(c: bv32, y: bv32, z: bv32, n: nat)
    requires Zeros(z, n) == y
    ensures Zeros(Xor(Zeros(c, n), y), 8) == Zeros(Xor(c, z), n + 8)
  {
    hide Zeros, Xor;
    ZerosOfXor(c, z, n);
    ZerosAdd(Xor(c, z), n, 8);
  }

  lemma FourBytes(c: bv32, b0: bv8, b1: bv8, b2: bv8, b3: bv8)
    ensures Zeros(Xor(Zeros(Xor(Zeros(Xor(Zeros(Xor(c, b0 as bv32), 8), b1 as bv32), 8), b2 as bv32), 8), b3 as bv32),
             8)
         == Zeros(Xor(c, Word(b0, b1, b2, b3)), 32)
  {
    hide Zeros, Xor, Word;
    var y0, y1, y2, y3 := b0 as bv32, b1 as bv32, b2 as bv32, b3 as bv32;
    SmallBytes(0, b1);
    SmallBytes(0, b2);
    SmallBytes(0, b3);
    Later(y1);
    Later(y2);
    Later(y3);
    var d0 := Xor(c, y0);
    AddLater(d0, y1, y1 << 8, 8);
    var d1 := Xor(d0, y1 << 8);
    AddLater(d1, y2, y2 << 16, 16);
    var d2 := Xor(d1, y2 << 16);
    AddLater(d2, y3, y3 << 24, 24);
    WordIs(b0, b1, b2, b3);
    Regroup(c, y0, y1 << 8, y2 << 16, y3 << 24);
  }

  lemma Regroup(c: bv32, x0: bv32, x1: bv32, x2: bv32, x3: bv32)
    ensures Xor(Xor(Xor(Xor(c, x0), x1), x2), x3) == Xor(c, Xor(x0, Xor(x1, Xor(x2, x3))))
  {
    hide Xor;
    XorLaws(c, x0, x1);
    XorLaws(c, Xor(x0, x1), x2);
    XorLaws(x0, x1, x2);
    XorLaws(c, Xor(x0, Xor(x1, x2)), x3);
    XorLaws(x0, Xor(x1, x2), x3);
    XorLaws(x1, x2, x3);
  }

  lemma FoldFour(c: bv32, s: seq<bv8>, i: nat)
    requires i + 4 <= |s|
    ensures Fold(c, s[..i + 4]) == Zeros(Xor(Fold(c, s[..i]), Word(s[i], s[i + 1], s[i + 2], s[i + 3])), 32)
  {
    hide Fold, Zeros, Xor, Word;
    FoldOne(c, s, i);
    FoldOne(c, s, i + 1);
    FoldOne(c, s, i + 2);
    FoldOne(c, s, i + 3);
    FourBytes(Fold(c, s[..i]), s[i], s[i + 1], s[i + 2], s[i + 3]);
  }

  // ---------- the other byte order ----------

  /** REV: the bytes of a word in the other order. */
  function Rev(w: bv32): bv32
  {
    (w >> 24) + ((w >> 8) & 0xff00) + ((w & 0xff00) << 8) + ((w & 0xff) << 24)
  }

  function Swapped(w: bv32): bv32
  {
    (w >> 24) | ((w >> 8) & 0xff00) | ((w & 0xff00) << 8) | ((w & 0xff) << 24)
  }

  function Add(x: bv32, y: bv32): bv32
  {
    x + y
  }

  function Or(x: bv32, y: bv32): bv32
  {
    x | y
  }

  lemma AddIsOr(a: bv32, b: bv32)
    requires a & b == 0
    ensures Add(a, b) == Or(a, b)
  {
    NoCarries(a, b);
  }

  lemma NoCarries(a: bv32, b: bv32)
    requires a & b == 0
    ensures a + b == a | b
  {
  }

  lemma ApartBytes(a: bv32, b: bv32, c: bv32, d: bv32)
    requires a & 0xffffff00 == 0 && b & 0xffff00ff == 0 && c & 0xff00ffff == 0 && d & 0x00ffffff == 0
    ensures a & b == 0 && Or(a, b) & c == 0 && Or(Or(a, b), c) & d == 0
  {
  }

  lemma Masks(w: bv32)
    ensures (w >> 24) & 0xffffff00 == 0 && ((w >> 8) & 0xff00) & 0xffff00ff == 0
    ensures ((w & 0xff00) << 8) & 0xff00ffff == 0 && ((w & 0xff) << 24) & 0x00ffffff == 0
  {
  }

  lemma Ors(a: bv32, b: bv32, c: bv32, d: bv32)
    requires a & 0xffffff00 == 0 && b & 0xffff00ff == 0 && c & 0xff00ffff == 0 && d & 0x00ffffff == 0
    ensures Add(Add(Add(a, b), c), d) == Or(Or(Or(a, b), c), d)
  {
    hide Add, Or;
    ApartBytes(a, b, c, d);
    AddIsOr(a, b);
    AddIsOr(Or(a, b), c);
    AddIsOr(Or(Or(a, b), c), d);
  }

  /** The four bytes do not overlap. */
  lemma NoCarry(w: bv32)
    ensures Rev(w) == Swapped(w)
  {
    Masks(w);
    Ors(w >> 24, (w >> 8) & 0xff00, (w & 0xff00) << 8, (w & 0xff) << 24);
  }

  lemma SwappedXor(x: bv32, y: bv32)
    ensures Swapped(x ^ y) == Swapped(x) ^ Swapped(y)
  {
  }

  lemma RevXor(x: bv32, y: bv32)
    ensures Rev(Xor(x, y)) == Xor(Rev(x), Rev(y))
  {
    hide Rev, Swapped;
    NoCarry(x);
    NoCarry(y);
    NoCarry(x ^ y);
    SwappedXor(x, y);
  }

  lemma SwappedTwice(x: bv32)
    ensures Swapped(Swapped(x)) == x
  {
  }

  lemma SwappedNot(x: bv32)
    ensures Swapped(!x) == !Swapped(x)
  {
  }

  lemma SwappedShift(x: bv32)
    ensures Swapped(x >> 8) == Swapped(x) << 8
  {
  }

  lemma SwappedBytes(x: bv32)
    ensures Swapped(x) >> 24 == x & 0xff && (Swapped(x) >> 16) & 0xff == (x >> 8) & 0xff
    ensures (Swapped(x) >> 8) & 0xff == (x >> 16) & 0xff && Swapped(x) & 0xff == x >> 24
  {
  }

  lemma RevTwice(x: bv32)
    ensures Rev(Rev(x)) == x
  {
    hide Rev, Swapped;
    NoCarry(x);
    NoCarry(Rev(x));
    SwappedTwice(x);
  }

  lemma RevNot(x: bv32)
    ensures Rev(Not(x)) == Not(Rev(x))
  {
    hide Rev, Swapped;
    NoCarry(x);
    NoCarry(!x);
    SwappedNot(x);
  }

  function Up8(x: bv32): bv32
  {
    x << 8
  }

  lemma RevShift(x: bv32)
    ensures Rev(Down(x, 1)) == Up8(Rev(x))
  {
    hide Rev, Swapped;
    NoCarry(x);
    NoCarry(x >> 8);
    SwappedShift(x);
  }

  lemma RevBytes(x: bv32)
    ensures Low8(Down(Rev(x), 3)) == Down(Rev(x), 3) == Low8(x) && Low8(Down(Rev(x), 2)) == Low8(Down(x, 1))
    ensures Low8(Down(Rev(x), 1)) == Low8(Down(x, 2)) && Low8(Rev(x)) == Low8(Down(x, 3))
  {
    hide Rev, Swapped;
    NoCarry(x);
    SwappedBytes(x);
    TopByte(x);
  }

  // ---------- the tables ----------

  type Index = i: nat | i < 256

  /** An index into a table: the low byte of x. */
  function Slot(x: bv32): (i: Index)
    ensures i as bv32 == Low8(x)
  {
    SlotBound(Low8(x));
    SlotIs(Low8(x));
    Low8(x) as nat
  }

  lemma SlotBound(b: bv32)
    requires b <= 0xff
    ensures (b as nat) < 256
  {
  }

  lemma SlotIs(b: bv32)
    ensures (b as nat) as bv32 == b
  {
  }

  /** Table k: the register after a byte and k bytes 0; table k + 4: the same with its bytes in the other order. */
  ghost predicate Made(t: array2<bv32>)
    requires t.Length0 == 8 && t.Length1 == 256
    reads t
  {
    forall n: Index :: Entries(t, n)
  }

  ghost predicate Entries(t: array2<bv32>, n: Index)
    requires t.Length0 == 8 && t.Length1 == 256
    reads t
  {
    && t[0, n] == Zeros(n as bv32, 8) && t[1, n] == Zeros(n as bv32, 16) && t[2, n] == Zeros(n as bv32, 24)
        && t[3, n] == Zeros(n as bv32, 32)
    && t[4, n] == Rev(t[0, n]) && t[5, n] == Rev(t[1, n]) && t[6, n] == Rev(t[2, n]) && t[7, n] == Rev(t[3, n])
  }

  lemma Looked(t: array2<bv32>, x: bv32)
    requires t.Length0 == 8 && t.Length1 == 256 && Made(t)
    ensures t[0, Slot(x)] == Zeros(Low8(x), 8) && t[1, Slot(x)] == Zeros(Low8(x), 16)
    ensures t[2, Slot(x)] == Zeros(Low8(x), 24) && t[3, Slot(x)] == Zeros(Low8(x), 32)
    ensures t[4, Slot(x)] == Rev(t[0, Slot(x)]) && t[5, Slot(x)] == Rev(t[1, Slot(x)])
    ensures t[6, Slot(x)] == Rev(t[2, Slot(x)]) && t[7, Slot(x)] == Rev(t[3, Slot(x)])
  {
    hide Zeros, Rev;
    assert Entries(t, Slot(x));
  }

  function Double(x: bv32): bv32
  {
    x << 1
  }

  /** 1UL << n. */
  function One(n: nat): bv32
  {
    if n == 0 then 1 else Double(One(n - 1))
  }

  /** The exponents of the terms of the polynomial, without 32. */
  const TERMS: seq<nat> := [0, 1, 2, 4, 5, 7, 8, 10, 11, 12, 16, 22, 23, 26]

  function PolyOf(n: nat): bv32
    requires n <= 14
  {
    if n == 0 then 0 else PolyOf(n - 1) | One(31 - TERMS[n - 1])
  }

  lemma Ones()
    ensures One(5) == 0x20 && One(8) == 0x100 && One(9) == 0x200 && One(15) == 0x8000 && One(19) == 0x80000
    ensures One(20) == 0x100000
    ensures One(21) == 0x200000 && One(23) == 0x800000 && One(24) == 0x1000000 && One(26) == 0x4000000
    ensures One(27) == 0x8000000
    ensures One(29) == 0x20000000 && One(30) == 0x40000000 && One(31) == 0x80000000
  {
    assert One(2) == 4;
    assert One(12) == 0x1000;
    assert One(17) == 0x20000;
  }

  lemma PolyIs()
    ensures PolyOf(14) == POLY
  {
    hide One;
    Ones();
    assert PolyOf(1) == 0x80000000;
    assert PolyOf(2) == 0xc0000000;
    assert PolyOf(3) == 0xe0000000;
    assert PolyOf(4) == 0xe8000000;
    assert PolyOf(5) == 0xec000000;
    assert PolyOf(6) == 0xed000000;
    assert PolyOf(7) == 0xed800000;
    assert PolyOf(8) == 0xeda00000;
    assert PolyOf(9) == 0xedb00000;
    assert PolyOf(10) == 0xedb80000;
    assert PolyOf(11) == 0xedb88000;
    assert PolyOf(12) == 0xedb88200;
    assert PolyOf(13) == 0xedb88300;
  }

  /** The exclusive-or pattern of the polynomial. */
  method MakePoly() returns (poly: bv32)
    ensures poly == POLY
  {
    hide One;
    poly := 0;
    for n := 0 to 14
      invariant poly == PolyOf(n)
    {
      poly := poly | One(31 - TERMS[n]);
    }
    PolyIs();
  }

  /** The CRC of one byte, a bit at a time. */
  method OneByte(poly: bv32, n: nat) returns (c: bv32)
    requires poly == POLY && n < 256
    ensures c == Zeros(n as bv32, 8)
  {
    c := n as bv32;
    for k := 0 to 8
      invariant c == Zeros(n as bv32, k)
    {
      ZerosAdd(n as bv32, k, 1);
      assert Zeros(c, 1) == Zeros(Zero(c), 0);
      c := if c & 1 == 1 then poly ^ (c >> 1) else c >> 1;
    }
  }

  /** Table 0. */
  ghost predicate Singles(t: array2<bv32>, n: nat)
    requires t.Length0 == 8 && t.Length1 == 256
    reads t
  {
    forall i: Index :: i < n ==> t[0, i] == Zeros(i as bv32, 8)
  }

  /** make_crc_table. */
  method MakeCrcTable(t: array2<bv32>)
    requires t.Length0 == 8 && t.Length1 == 256
    modifies t
    ensures Made(t)
  {
    hide Zeros, Rev, Slot, Entries;
    var poly := MakePoly();
    for n: nat := 0 to 256
      invariant Singles(t, n)
    {
      var c := OneByte(poly, n);
      t[0, n] := c;
    }
    for n: nat := 0 to 256
      invariant Singles(t, 256) && forall i: Index :: i < n ==> Entries(t, i)
    {
      FillColumn(t, n);
    }
  }

  lemma NextRow(t: array2<bv32>, c: bv32, n: nat, m: nat)
    requires t.Length0 == 8 && t.Length1 == 256 && Singles(t, 256) && n < 256
    requires c == Zeros(n as bv32, m)
    ensures Xor(t[0, Slot(c)], Down(c, 1)) == Zeros(n as bv32, m + 8)
  {
    hide Zeros, Xor, Down, Low8;
    assert t[0, Slot(c)] == Zeros(Low8(c), 8);
    TableStep(c);
    ZerosAdd(n as bv32, m, 8);
  }

  /** The entries for n in tables k and k + 4. */
  method NextEntry(t: array2<bv32>, n: Index, k: nat, c0: bv32) returns (c: bv32)
    requires t.Length0 == 8 && t.Length1 == 256 && Singles(t, 256) && 1 <= k < 4 && c0 == Zeros(n as bv32, 8 * k)
    modifies t
    ensures c == Zeros(n as bv32, 8 * k + 8) && t[k, n] == c && t[k + 4, n] == Rev(c)
    ensures forall j: nat, i: Index :: j < 8 && !(i == n && (j == k || j == k + 4)) ==> t[j, i] == old(t[j, i])
  {
    hide Zeros, Rev, Slot, Xor, Down, Singles;
    NextRow(t, c0, n, 8 * k);
    c := Xor(t[0, Slot(c0)], Down(c0, 1));
    t[k, n] := c;
    t[k + 4, n] := Rev(c);
  }

  /** Tables 1 to k - 1, and 4 to k + 3, have their entries for n. */
  ghost predicate Rows(t: array2<bv32>, n: Index, k: nat)
    requires t.Length0 == 8 && t.Length1 == 256
    reads t
  {
    && t[4, n] == Rev(t[0, n])
    && (k > 1 ==> t[1, n] == Zeros(n as bv32, 16) && t[5, n] == Rev(t[1, n]))
    && (k > 2 ==> t[2, n] == Zeros(n as bv32, 24) && t[6, n] == Rev(t[2, n]))
    && (k > 3 ==> t[3, n] == Zeros(n as bv32, 32) && t[7, n] == Rev(t[3, n]))
  }

  /** The entries for n in the other tables. */
  method FillColumn(t: array2<bv32>, n: Index)
    requires t.Length0 == 8 && t.Length1 == 256 && Singles(t, 256)
    modifies t
    ensures Entries(t, n) && Singles(t, 256)
    ensures forall i: Index :: i != n && old(Entries(t, i)) ==> Entries(t, i)
  {
    hide Zeros, Rev;
    var c := t[0, n];
    t[4, n] := Rev(c);
    for k: nat := 1 to 4
      invariant forall i: Index :: t[0, i] == old(t[0, i])
      invariant forall j: nat, i: Index :: j < 8 && i != n ==> t[j, i] == old(t[j, i])
      invariant c == Zeros(n as bv32, 8 * k) && Rows(t, n, k)
    {
      c := NextEntry(t, n, k, c);
    }
  }

  // ---------- the loops ----------

  /** DO1, and the single steps of crc32_little. */
  method DoOne(t: array2<bv32>, c: bv32, b: bv8) returns (r: bv32)
    requires t.Length0 == 8 && t.Length1 == 256 && Made(t)
    ensures r == Zeros(Xor(c, b as bv32), 8)
  {
    hide Zeros, Made, Slot, Xor, Low8, Down;
    var x := Xor(c, b as bv32);
    Looked(t, x);
    TableStep(x);
    NoHighBits(c, b);
    r := Xor(t[0, Slot(x)], Down(c, 1));
  }

  lemma NoHighBits(c: bv32, b: bv8)
    ensures Down(Xor(c, b as bv32), 1) == Down(c, 1)
  {
    assert (c ^ (b as bv32)) >> 8 == c >> 8;
  }

  /** DOLIT4: a word from four look-ups. */
  method DoLit4(t: array2<bv32>, c0: bv32, w: bv32) returns (c: bv32)
    requires t.Length0 == 8 && t.Length1 == 256 && Made(t)
    ensures c == Zeros(Xor(c0, w), 32)
  {
    hide Zeros, Made, Slot, Xor, Low8, Down;
    c := Xor(c0, w);
    FourLooked(t, c);
    c := Xor(Xor(Xor(t[3, Slot(c)], t[2, Slot(Down(c, 1))]), t[1, Slot(Down(c, 2))]), t[0, Slot(Down(c, 3))]);
  }

  lemma FourLooked(t: array2<bv32>, x: bv32)
    requires t.Length0 == 8 && t.Length1 == 256 && Made(t)
    ensures Xor(Xor(Xor(t[3, Slot(x)], t[2, Slot(Down(x, 1))]), t[1, Slot(Down(x, 2))]), t[0, Slot(Down(x, 3))])
             == Zeros(x, 32)
  {
    hide Zeros, Made, Slot, Xor, Low8, Down;
    Looked(t, x);
    Looked(t, Down(x, 1));
    Looked(t, Down(x, 2));
    Looked(t, Down(x, 3));
    SlicedStep(x);
    Grouped(t[3, Slot(x)], t[2, Slot(Down(x, 1))], t[1, Slot(Down(x, 2))], t[0, Slot(Down(x, 3))]);
  }

  lemma Grouped(z0: bv32, z1: bv32, z2: bv32, z3: bv32)
    ensures Xor(Xor(Xor(z0, z1), z2), z3) == Xor(z0, Xor(z1, Xor(z2, z3)))
    ensures Xor(Xor(Xor(z0, z1), z2), z3) == Xor(Xor(Xor(z3, z2), z1), z0)
  {
    hide Xor;
    XorLaws(z0, z1, z2);
    XorLaws(z0, Xor(z1, z2), z3);
    XorLaws(z1, z2, z3);
    XorLaws(z2, z3, z3);
    XorLaws(z1, Xor(z2, z3), z3);
    XorLaws(Xor(z3, z2), z1, z0);
    XorLaws(z0, Xor(z1, Xor(z2, z3)), z0);
  }

  /** The register has taken the first i bytes; len are left. */
  ghost predicate Taken(c0: bv32, buf: seq<bv8>, i: nat, len: nat, c: bv32)
  {
    i + len == |buf| && c == Fold(c0, buf[..i])
  }

  lemma NoneTaken(c0: bv32, buf: seq<bv8>)
    ensures Taken(c0, buf, 0, |buf|, c0)
  {
  }

  lemma AllTaken(c0: bv32, buf: seq<bv8>, i: nat, c: bv32)
    requires Taken(c0, buf, i, 0, c)
    ensures c == Fold(c0, buf)
  {
    assert buf[..i] == buf;
  }

  lemma OneTaken(c0: bv32, buf: seq<bv8>, i: nat, len: nat, c: bv32)
    requires Taken(c0, buf, i, len, c) && len >= 1
    ensures Taken(c0, buf, i + 1, len - 1, Zeros(Xor(c, buf[i] as bv32), 8))
  {
    hide Fold, Zeros, Xor;
    FoldOne(c0, buf, i);
  }

  lemma FourTaken(c0: bv32, buf: seq<bv8>, i: nat, len: nat, c: bv32)
    requires Taken(c0, buf, i, len, c) && len >= 4
    ensures i + 4 <= |buf| && Taken(c0, buf, i + 4, len - 4, Zeros(Xor(c, WordAt(buf, i)), 32))
  {
    hide Fold, Zeros, Xor, Word;
    FoldFour(c0, buf, i);
  }

  /** The word at place i as a little-endian machine loads it. */
  function WordAt(buf: seq<bv8>, i: nat): bv32
    requires i + 4 <= |buf|
  {
    Word(buf[i], buf[i + 1], buf[i + 2], buf[i + 3])
  }

  /** crc32 without BYFOUR: eight bytes, and then one byte, at a time. */
  method Crc32Bytes(t: array2<bv32>, crc: bv32, buf: seq<bv8>) returns (r: bv32)
    requires t.Length0 == 8 && t.Length1 == 256 && Made(t)
    ensures r == Crc(crc, buf)
  {
    hide Made, Taken, Fold, Zeros, Xor, Not;
    var c := Xor(crc, 0xffffffff);
    Invert(crc);
    NoneTaken(c, buf);
    ghost var c0 := c;
    var i: nat, len: nat := 0, |buf|;
    while len >= 8
      invariant Taken(c0, buf, i, len, c) && i + len == |buf|
    {
      for k: nat := 0 to 8
        invariant Taken(c0, buf, i + k, len - k, c)
      {
        OneTaken(c0, buf, i + k, len - k, c);
        c := DoOne(t, c, buf[i + k]);
      }
      i := i + 8;
      len := len - 8;
    }
    while len != 0
      invariant Taken(c0, buf, i, len, c) && i + len == |buf|
      decreases len
    {
      OneTaken(c0, buf, i, len, c);
      c := DoOne(t, c, buf[i]);
      i := i + 1;
      len := len - 1;
    }
    AllTaken(c0, buf, i, c);
    Invert(c);
    r := Xor(c, 0xffffffff);
  }

  lemma Invert(c: bv32)
    ensures Xor(c, 0xffffffff) == Not(c)
  {
  }

  /** crc32_little: up to a word boundary by bytes, then words, 8 in a row while there are as many, then bytes. */
  method Crc32Little(t: array2<bv32>, crc: bv32, buf: seq<bv8>, addr: nat) returns (r: bv32)
    requires t.Length0 == 8 && t.Length1 == 256 && Made(t)
    ensures r == Crc(crc, buf)
  {
    hide Made, Taken, Fold, Zeros, Xor, Word, Not;
    var c := Not(crc);
    NoneTaken(c, buf);
    ghost var c0 := c;
    var i: nat, len: nat := 0, |buf|;
    while len != 0 && (addr + i) % 4 != 0
      invariant Taken(c0, buf, i, len, c) && i + len == |buf|
      decreases len
    {
      OneTaken(c0, buf, i, len, c);
      c := DoOne(t, c, buf[i]);
      i := i + 1;
      len := len - 1;
    }
    while len >= 32
      invariant Taken(c0, buf, i, len, c) && i + len == |buf|
    {
      for k: nat := 0 to 8
        invariant Taken(c0, buf, i + 4 * k, len - 4 * k, c)
      {
        FourTaken(c0, buf, i + 4 * k, len - 4 * k, c);
        c := DoLit4(t, c, WordAt(buf, i + 4 * k));
      }
      i := i + 32;
      len := len - 32;
    }
    while len >= 4
      invariant Taken(c0, buf, i, len, c) && i + len == |buf|
    {
      FourTaken(c0, buf, i, len, c);
      c := DoLit4(t, c, WordAt(buf, i));
      i := i + 4;
      len := len - 4;
    }
    while len != 0
      invariant Taken(c0, buf, i, len, c) && i + len == |buf|
      decreases len
    {
      OneTaken(c0, buf, i, len, c);
      c := DoOne(t, c, buf[i]);
      i := i + 1;
      len := len - 1;
    }
    AllTaken(c0, buf, i, c);
    r := Not(c);
  }

  /** The single steps of crc32_big: the register is held with its bytes in the other order. */
  method DoOneBig(t: array2<bv32>, c: bv32, b: bv8, ghost d: bv32) returns (r: bv32)
    requires t.Length0 == 8 && t.Length1 == 256 && Made(t) && c == Rev(d)
    ensures r == Rev(Zeros(Xor(d, b as bv32), 8))
  {
    hide Zeros, Made, Slot, Rev, Xor, Low8, Down, Up8;
    ghost var x := Xor(d, b as bv32);
    BigSlot(d, b);
    NoHighBits(d, b);
    Looked(t, x);
    TableStep(x);
    RevShift(d);
    RevXor(t[0, Slot(x)], Down(d, 1));
    r := Xor(t[4, Slot(Xor(Down(c, 3), b as bv32))], Up8(c));
  }

  lemma BigSlot(d: bv32, b: bv8)
    ensures Slot(Xor(Down(Rev(d), 3), b as bv32)) == Slot(Xor(d, b as bv32))
  {
    hide Rev;
    RevBytes(d);
    LowOfXor(d, b);
  }

  lemma LowOfXor(d: bv32, b: bv8)
    ensures Xor(Low8(d), b as bv32) & 0xff == Xor(d, b as bv32) & 0xff
  {
  }

  /** DOBIG4. */
  method DoBig4(t: array2<bv32>, c0: bv32, w: bv32, ghost d: bv32, ghost v: bv32) returns (c: bv32)
    requires t.Length0 == 8 && t.Length1 == 256 && Made(t) && c0 == Rev(d) && w == Rev(v)
    ensures c == Rev(Zeros(Xor(d, v), 32))
  {
    hide Zeros, Made, Slot, Rev, Xor, Low8, Down;
    RevXor(d, v);
    c := Xor(c0, w);
    FourLookedBig(t, Xor(d, v));
    c := Xor(Xor(Xor(t[4, Slot(c)], t[5, Slot(Down(c, 1))]), t[6, Slot(Down(c, 2))]), t[7, Slot(Down(c, 3))]);
  }

  lemma SlotOfByte(x: bv32, y: bv32)
    requires Low8(x) == Low8(y)
    ensures Slot(x) == Slot(y)
  {
  }

  lemma RevSlots(x: bv32)
    ensures Slot(Rev(x)) == Slot(Down(x, 3)) && Slot(Down(Rev(x), 1)) == Slot(Down(x, 2))
    ensures Slot(Down(Rev(x), 2)) == Slot(Down(x, 1)) && Slot(Down(Rev(x), 3)) == Slot(x)
  {
    hide Rev, Slot, Low8, Down;
    RevBytes(x);
    SlotOfByte(Rev(x), Down(x, 3));
    SlotOfByte(Down(Rev(x), 1), Down(x, 2));
    SlotOfByte(Down(Rev(x), 2), Down(x, 1));
    SlotOfByte(Down(Rev(x), 3), x);
  }

  lemma FourLookedBig(t: array2<bv32>, x: bv32)
    requires t.Length0 == 8 && t.Length1 == 256 && Made(t)
    ensures Xor(Xor(Xor(t[4, Slot(Rev(x))], t[5, Slot(Down(Rev(x), 1))]), t[6, Slot(Down(Rev(x), 2))]),
             t[7, Slot(Down(Rev(x), 3))]) == Rev(Zeros(x, 32))
  {
    hide Zeros, Made, Slot, Rev, Xor, Low8, Down;
    RevSlots(x);
    Looked(t, x);
    Looked(t, Down(x, 1));
    Looked(t, Down(x, 2));
    Looked(t, Down(x, 3));
    FourLooked(t, x);
    var z0, z1, z2, z3 := t[0, Slot(Down(x, 3))], t[1, Slot(Down(x, 2))], t[2, Slot(Down(x, 1))], t[3, Slot(x)];
    Grouped(z3, z2, z1, z0);
    RevXor(z0, z1);
    RevXor(Xor(z0, z1), z2);
    RevXor(Xor(Xor(z0, z1), z2), z3);
  }

  /** The word at place i as a big-endian machine loads it. */
  function BigWordAt(buf: seq<bv8>, i: nat): bv32
    requires i + 4 <= |buf|
  {
    Word(buf[i + 3], buf[i + 2], buf[i + 1], buf[i])
  }

  lemma BigWord(buf: seq<bv8>, i: nat)
    requires i + 4 <= |buf|
    ensures BigWordAt(buf, i) == Rev(WordAt(buf, i))
  {
    hide Rev;
    NoCarry(WordAt(buf, i));
    BigWordIs(buf[i], buf[i + 1], buf[i + 2], buf[i + 3]);
  }

  lemma BigWordIs(b0: bv8, b1: bv8, b2: bv8, b3: bv8)
    ensures Word(b3, b2, b1, b0) == Swapped(Word(b0, b1, b2, b3))
  {
  }

  /** crc32_big. */
  method Crc32Big(t: array2<bv32>, crc: bv32, buf: seq<bv8>, addr: nat) returns (r: bv32)
    requires t.Length0 == 8 && t.Length1 == 256 && Made(t)
    ensures r == Crc(crc, buf)
  {
    hide Made, Taken, Fold, Zeros, Xor, Word, Rev, Not;
    var c := Rev(crc);
    c := Not(c);
    ghost var d := Not(crc);
    RevNot(crc);
    NoneTaken(d, buf);
    ghost var c0 := d;
    var i: nat, len: nat := 0, |buf|;
    while len != 0 && (addr + i) % 4 != 0
      invariant Taken(c0, buf, i, len, d) && i + len == |buf| && c == Rev(d)
      decreases len
    {
      OneTaken(c0, buf, i, len, d);
      c := DoOneBig(t, c, buf[i], d);
      d := Zeros(Xor(d, buf[i] as bv32), 8);
      i := i + 1;
      len := len - 1;
    }
    while len >= 32
      invariant Taken(c0, buf, i, len, d) && i + len == |buf| && c == Rev(d)
    {
      for k: nat := 0 to 8
        invariant Taken(c0, buf, i + 4 * k, len - 4 * k, d) && c == Rev(d)
      {
        c, d := Big4At(t, c, buf, i + 4 * k, len - 4 * k, c0, d);
      }
      i := i + 32;
      len := len - 32;
    }
    while len >= 4
      invariant Taken(c0, buf, i, len, d) && i + len == |buf| && c == Rev(d)
    {
      c, d := Big4At(t, c, buf, i, len, c0, d);
      i := i + 4;
      len := len - 4;
    }
    while len != 0
      invariant Taken(c0, buf, i, len, d) && i + len == |buf| && c == Rev(d)
      decreases len
    {
      OneTaken(c0, buf, i, len, d);
      c := DoOneBig(t, c, buf[i], d);
      d := Zeros(Xor(d, buf[i] as bv32), 8);
      i := i + 1;
      len := len - 1;
    }
    AllTaken(c0, buf, i, d);
    c := Not(c);
    RevNot(d);
    RevTwice(Not(d));
    r := Rev(c);
  }

  method Big4At(t: array2<bv32>, c: bv32, buf: seq<bv8>, i: nat, ghost len: nat, ghost c0: bv32, ghost d: bv32)
    returns (c1: bv32, ghost d1: bv32)
    requires t.Length0 == 8 && t.Length1 == 256 && Made(t) && Taken(c0, buf, i, len, d) && len >= 4 && c == Rev(d)
    requires i + 4 <= |buf|
    ensures Taken(c0, buf, i + 4, len - 4, d1) && c1 == Rev(d1)
  {
    hide Made, Taken, Fold, Zeros, Xor, Word, Rev, Not;
    FourTaken(c0, buf, i, len, d);
    BigWord(buf, i);
    c1 := DoBig4(t, c, BigWordAt(buf, i), d, WordAt(buf, i));
    d1 := Zeros(Xor(d, WordAt(buf, i)), 32);
  }

  /** How crc32 goes over the buffer: by bytes, or by words of either byte order. */
  datatype Machine = Plain | LittleEndian | BigEndian

  datatype Buffer = Null | Bytes(data: seq<bv8>, addr: nat)

  /** crc32: the same on every machine, for every buffer at every address. */
  method Crc32(t: array2<bv32>, m: Machine, crc: bv32, buf: Buffer) returns (r: bv32)
    requires t.Length0 == 8 && t.Length1 == 256 && Made(t)
    ensures r == if buf.Null? then 0 else Crc(crc, buf.data)
  {
    if buf.Null? {
      return 0;
    }
    match m {
      case Plain => r := Crc32Bytes(t, crc, buf.data);
      case LittleEndian => r := Crc32Little(t, crc, buf.data, buf.addr);
      case BigEndian => r := Crc32Big(t, crc, buf.data, buf.addr);
    }
  }

  // ---------- crc32_combine ----------

  function Half(x: bv32): bv32
  {
    x >> 1
  }

  /** The product of a matrix, given by its columns, and a vector over GF(2). */
  function Times(mat: seq<bv32>, vec: bv32): bv32
    decreases |mat|
  {
    if vec == 0 || mat == [] then 0 else Xor(if vec & 1 == 1 then mat[0] else 0, Times(mat[1..], Half(vec)))
  }

  /** The bits of x from bit n on. */
  function Up1(x: bv32, n: nat): bv32
    decreases n
  {
    if n == 0 then x else Double(Up1(x, n - 1))
  }

  /** x has no more than n bits. */
  predicate Fits32(x: bv32, n: nat)
  {
    if n == 0 then x == 0 else Fits32(Half(x), n - 1)
  }

  /**
   The matrix of k zero bits, from its column n on: column i is what k zero bits make of the vector with bit n + i only.
   */
  ghost predicate Operator(mat: seq<bv32>, n: nat, k: nat)
  {
    n + |mat| == 32 && forall i: nat :: i < |mat| ==> mat[i] == Zeros(One(n + i), k)
  }

  lemma TwoPartsOf(x: bv32)
    ensures x == (x & 1) ^ ((x >> 1) << 1) && (x & 1 == 0 || x & 1 == 1) && (x >> 1) << 1 == 0 ^ ((x >> 1) << 1)
  {
  }

  lemma LastBit(x: bv32)
    ensures x == Xor(if x & 1 == 1 then 1 else 0, Double(Half(x)))
  {
    TwoPartsOf(x);
  }

  lemma DoubleXor(x: bv32, y: bv32)
    ensures Double(Xor(x, y)) == Xor(Double(x), Double(y))
  {
  }

  lemma DoubleNothing()
    ensures Double(0) == 0
  {
  }

  lemma {:induction false} Up1Step(x: bv32, n: nat)
    ensures Up1(x, n) == Xor(if x & 1 == 1 then One(n) else 0, Up1(Half(x), n + 1))
    decreases n
  {
    hide Xor, Double;
    if n == 0 {
      LastBit(x);
      assert Up1(Half(x), 1) == Double(Up1(Half(x), 0));
    } else {
      Up1Step(x, n - 1);
      DoubleNothing();
      DoubleXor(if x & 1 == 1 then One(n - 1) else 0, Up1(Half(x), n));
    }
  }

  lemma {:induction false} ZerosNothing(k: nat)
    ensures Zeros(0, k) == 0
  {
    if k > 0 {
      assert Zero(0) == 0;
      ZerosNothing(k - 1);
    }
  }

  lemma {:induction false} Up1Nothing(n: nat)
    ensures Up1(0, n) == 0
  {
    if n > 0 {
      Up1Nothing(n - 1);
    }
  }

  /** The matrix does what k zero bits do. */
  lemma {:induction false} OperatorTimes(mat: seq<bv32>, n: nat, k: nat, vec: bv32)
    requires Operator(mat, n, k) && Fits32(vec, 32 - n)
    ensures Times(mat, vec) == Zeros(Up1(vec, n), k)
    decreases |mat|
  {
    hide Xor, Zeros, Zero, One;
    if vec == 0 {
      Up1Nothing(n);
      ZerosNothing(k);
    } else {
      assert mat != [];
      assert Operator(mat[1..], n + 1, k) by {
        hide Up1, Times, Fits32;
        forall i: nat | i < |mat| - 1
          ensures mat[1..][i] == Zeros(One(n + 1 + i), k)
        {
          assert mat[i + 1] == Zeros(One(n + (i + 1)), k);
        }
      }
      OperatorTimes(mat[1..], n + 1, k, Half(vec));
      Up1Step(vec, n);
      ZerosOfXor(if vec & 1 == 1 then One(n) else 0, Up1(Half(vec), n + 1), k);
      ZerosNothing(k);
      assert mat[0] == Zeros(One(n + 0), k);
    }
  }

  lemma EightHalves(x: bv32)
    ensures Half(Half(Half(Half(Half(Half(Half(Half(x)))))))) == Down(x, 1)
  {
  }

  lemma EightMore(x: bv32, n: nat)
    requires Fits32(Down(x, 1), n)
    ensures Fits32(x, n + 8)
  {
    hide Half, Down;
    EightHalves(x);
    var x2 := Half(Half(x));
    var x4 := Half(Half(x2));
    var x6 := Half(Half(x4));
    assert Fits32(x6, n + 2);
    assert Fits32(x4, n + 4);
    assert Fits32(x2, n + 6);
  }

  lemma FourDowns(x: bv32)
    ensures Down(Down(Down(Down(x, 1), 1), 1), 1) == 0
  {
  }

  lemma WordFits(x: bv32)
    ensures Fits32(x, 32)
  {
    hide Down, Half;
    FourDowns(x);
    EightMore(Down(Down(Down(x, 1), 1), 1), 0);
    EightMore(Down(Down(x, 1), 1), 8);
    EightMore(Down(x, 1), 16);
    EightMore(x, 24);
  }

  /** gf2_matrix_times. */
  method Gf2MatrixTimes(mat: array<bv32>, vec0: bv32) returns (sum: bv32)
    requires mat.Length == 32
    ensures sum == Times(mat[..], vec0)
  {
    hide Xor, Fits32;
    var vec := vec0;
    ghost var m := mat[..];
    var i := 0;
    sum := 0;
    WordFits(vec);
    XorLaws(Times(m, vec), 0, 0);
    assert m[0..] == m;
    while vec != 0
      invariant i <= 32 && Fits32(vec, 32 - i) && Times(m, vec0) == Xor(sum, Times(m[i..], vec))
      decreases 32 - i
    {
      NotYet(vec, 32 - i);
      assert m[i..][1..] == m[i + 1..] && m[i..][0] == m[i];
      XorLaws(sum, m[i], Times(m[i + 1..], Half(vec)));
      XorLaws(Times(m[i + 1..], Half(vec)), 0, 0);
      if vec & 1 == 1 {
        sum := Xor(sum, mat[i]);
      }
      vec := Half(vec);
      i := i + 1;
    }
    XorLaws(sum, 0, 0);
  }

  lemma NotYet(vec: bv32, n: nat)
    requires Fits32(vec, n) && vec != 0
    ensures n > 0 && Fits32(Half(vec), n - 1)
  {
  }

  /** gf2_matrix_square. */
  method Gf2MatrixSquare(square: array<bv32>, mat: array<bv32>)
    requires square.Length == mat.Length == 32 && square != mat
    modifies square
    ensures forall n :: 0 <= n < 32 ==> square[n] == Times(mat[..], mat[n])
  {
    hide Times;
    for n := 0 to 32
      invariant forall i :: 0 <= i < n ==> square[i] == Times(mat[..], mat[i])
    {
      square[n] := Gf2MatrixTimes(mat, mat[n]);
    }
  }

  /** The square of the matrix of k zero bits is the matrix of twice as many. */
  lemma SquareIs(mat: seq<bv32>, square: seq<bv32>, k: nat)
    requires Operator(mat, 0, k) && |square| == 32 && forall n :: 0 <= n < 32 ==> square[n] == Times(mat, mat[n])
    ensures Operator(square, 0, k + k)
  {
    hide Times, Zeros, One, Fits32;
    forall i: nat | i < 32
      ensures square[i] == Zeros(One(0 + i), k + k)
    {
      WordFits(mat[i]);
      OperatorTimes(mat, 0, k, mat[i]);
      assert mat[i] == Zeros(One(0 + i), k);
      ZerosAdd(One(i), k, k);
    }
  }

  method Squared(square: array<bv32>, mat: array<bv32>, ghost k: nat)
    requires square.Length == mat.Length == 32 && square != mat && Operator(mat[..], 0, k)
    modifies square
    ensures Operator(square[..], 0, k + k)
  {
    hide Times, Operator;
    Gf2MatrixSquare(square, mat);
    SquareIs(mat[..], square[..], k);
  }

  /** The matrix applied if the lowest bit of len2 is set. */
  method Apply(mat: array<bv32>, crc: bv32, len2: nat, ghost k: nat) returns (r: bv32)
    requires mat.Length == 32 && Operator(mat[..], 0, k)
    ensures r == if len2 % 2 == 1 then Zeros(crc, k) else crc
  {
    hide Zeros, Operator, Times, Fits32;
    r := crc;
    if len2 % 2 == 1 {
      r := Gf2MatrixTimes(mat, crc);
      WordFits(crc);
      OperatorTimes(mat[..], 0, k, crc);
    }
  }

  /** What is left to do is halved. */
  lemma Halved(crc: bv32, k: nat, len: nat)
    ensures Zeros(if len % 2 == 1 then Zeros(crc, k) else crc, (k + k) * (len / 2)) == Zeros(crc, k * len)
  {
    hide Zeros;
    assert (k + k) * (len / 2) + k * (len % 2) == k * len by {
      assert len == 2 * (len / 2) + len % 2;
      assert (k + k) * (len / 2) == k * (2 * (len / 2));
    }
    if len % 2 == 1 {
      ZerosAdd(crc, k, (k + k) * (len / 2));
    }
  }

  lemma SmallOnes(r: nat)
    requires r < 8
    ensures One(r) <= 0x80 && (r < 7 ==> One(r) <= 0x40)
  {
    assert One(2) == 4;
    assert One(4) == 0x10;
    assert One(6) == 0x40;
  }

  lemma EightDoubles(x: bv32)
    ensures Double(Double(Double(Double(Double(Double(Double(Double(x)))))))) == Up8(x)
  {
  }

  lemma OneNext(n: nat)
    ensures One(n + 1) == Double(One(n))
  {
  }

  lemma EightUp(m: nat)
    ensures One(m + 8) == Up8(One(m))
  {
    hide One, Double, Up8;
    OneNext(m);
    OneNext(m + 1);
    OneNext(m + 2);
    OneNext(m + 3);
    OneNext(m + 4);
    OneNext(m + 5);
    OneNext(m + 6);
    OneNext(m + 7);
    EightDoubles(One(m));
  }

  lemma {:induction false} NoTopBit(m: nat)
    requires m <= 30
    ensures One(m) <= 0x40000000
  {
    hide One, Up8;
    var r := m % 8;
    SmallOnes(r);
    EightUp(r);
    EightUp(r + 8);
    EightUp(r + 16);
    ByteUps(One(r));
  }

  lemma ByteUps(x: bv32)
    requires x <= 0x80
    ensures Up8(x) <= 0x8000 && Up8(Up8(x)) <= 0x800000 && (x <= 0x40 ==> Up8(Up8(Up8(x))) <= 0x40000000)
  {
  }

  /** One zero bit takes every bit one place down, but for the last. */
  lemma FirstColumn(n: nat)
    requires 1 <= n < 32
    ensures Zeros(One(n), 1) == One(n - 1) && One(n) == Double(One(n - 1))
  {
    hide Zero, Double;
    NoTopBit(n - 1);
    UpAndDown(One(n - 1));
    assert Zeros(One(n), 1) == Zeros(Zero(One(n)), 0);
  }

  lemma UpAndDown(x: bv32)
    requires x <= 0x40000000
    ensures Zero(Double(x)) == x
  {
    hide Zero;
    NoLoss(x);
    EvenZero(Double(x));
  }

  lemma NoLoss(x: bv32)
    requires x <= 0x40000000
    ensures (x << 1) & 1 == 0 && (x << 1) >> 1 == x
  {
  }

  lemma LastColumn()
    ensures One(0) == 1 && Zeros(One(0), 1) == 0xedb88320
  {
    assert Zeros(1, 1) == Zeros(Zero(1), 0);
  }

  /** The operator for one zero bit. */
  method FirstOperator(odd: array<bv32>)
    requires odd.Length == 32
    modifies odd
    ensures Operator(odd[..], 0, 1)
  {
    hide One, Zero, Zeros;
    odd[0] := 0xedb88320;
    var row: bv32 := 1;
    LastColumn();
    for n: nat := 1 to 32
      invariant row == One(n - 1) && forall i: nat :: i < n ==> odd[i] == Zeros(One(i), 1)
    {
      FirstColumn(n);
      odd[n] := row;
      row := Double(row);
    }
  }

  /** crc32_combine: the CRC of two blocks from their CRCs and the length of the second. */
  method Crc32Combine(crc0: bv32, crc2: bv32, len0: nat) returns (crc: bv32)
    ensures crc == if len0 == 0 then crc0 else Xor(Zeros(crc0, 8 * len0), crc2)
  {
    hide Zeros, Operator, Xor;
    if len0 == 0 {
      return crc0;
    }
    var even, odd := new bv32[32], new bv32[32];
    FirstOperator(odd);
    Squared(even, odd, 1);
    Squared(odd, even, 2);
    var crc1, len2 := crc0, len0;
    ghost var k := 4;
    while true
      invariant Operator(odd[..], 0, k) && len2 > 0 && Zeros(crc1, (k + k) * len2) == Zeros(crc0, 8 * len0)
      decreases len2
    {
      Squared(even, odd, k);
      Halved(crc1, k + k, len2);
      crc1 := Apply(even, crc1, len2, k + k);
      len2 := len2 / 2;
      if len2 == 0 {
        NoMore(crc1, k + k + (k + k));
        break;
      }
      Squared(odd, even, k + k);
      Halved(crc1, k + k + (k + k), len2);
      crc1 := Apply(odd, crc1, len2, k + k + (k + k));
      len2 := len2 / 2;
      k := k + k + (k + k);
      if len2 == 0 {
        NoMore(crc1, k + k);
        break;
      }
    }
    crc := Xor(crc1, crc2);
  }

  lemma NoMore(crc: bv32, k: nat)
    ensures Zeros(crc, k * 0) == crc
  {
  }

  // ---------- what crc32_combine is for ----------

  lemma {:induction false} FoldXor(c: bv32, d: bv32, s: seq<bv8>)
    ensures Fold(Xor(c, d), s) == Xor(Fold(c, s), Zeros(d, 8 * |s|))
    decreases |s|
  {
    hide Xor, Zeros, Serial;
    if s == [] {
      NoMore(d, 0);
    } else {
      var b := s[0] as bv32;
      ByteIs(Xor(c, d), s[0]);
      ByteIs(c, s[0]);
      XorLaws(c, d, b);
      XorLaws(d, b, b);
      XorLaws(c, b, d);
      ZerosOfXor(Xor(c, b), d, 8);
      FoldXor(Serial(c, s[0], 8), Zeros(d, 8), s[1..]);
      ZerosAdd(d, 8, 8 * |s[1..]|);
    }
  }

  /** The CRC of a whole is combined from the CRCs of its parts. */
  lemma Combined(crc: bv32, a: seq<bv8>, b: seq<bv8>)
    ensures Xor(Zeros(Crc(crc, a), 8 * |b|), Crc(0, b)) == Crc(crc, a + b)
    ensures b == [] ==> Crc(crc, a) == Crc(crc, a + b)
  {
    hide Fold, Zeros, Xor, Not;
    FoldAppend(Not(crc), a, b);
    var f := Fold(Not(crc), a);
    NotIs(f);
    NotIs(0);
    XorLaws(Not(0), Not(f), f);
    FoldXor(Not(0), Not(f), b);
    var z := Zeros(Not(f), 8 * |b|);
    NotXor(Fold(Not(0), b), z);
    if b == [] {
      assert a + b == a;
    }
  }

  lemma NotIs(x: bv32)
    ensures Xor(Not(0), Not(x)) == x
  {
  }

  lemma NotXor(x: bv32, z: bv32)
    ensures Xor(z, Not(x)) == Not(Xor(x, z))
  {
  }

  /** crc32(crc32(0, a), b) is the CRC of a + b: the checksum can be taken piece by piece. */
  lemma PieceByPiece(crc: bv32, a: seq<bv8>, b: seq<bv8>)
    ensures Crc(Crc(crc, a), b) == Crc(crc, a + b)
  {
    hide Fold;
    FoldAppend(Not(crc), a, b);
  }
}
