/** The bit accumulator of inflate.c: PULLBYTE, NEEDBITS, BITS, DROPBITS, BYTEBITS and INITBITS. */
module BitReading {
  import opened Shift
  import opened Bits
  import opened Format
  import opened FormatFacts
  import opened BlockRoundTrip

  /** hold has the bits of B from pos on, which are bits in number. */
  ghost predicate Holds(B: Bits, pos: nat, hold: nat, bits: nat)
  {
    pos + bits == |B| && hold == ValOf(B[pos..])
  }

  lemma HoldsDrop(B: Bits, pos: nat, hold: nat, bits: nat, n: nat)
    requires Holds(B, pos, hold, bits) && n <= bits
    ensures Holds(B, pos + n, Shr(hold, n), bits - n)
    ensures Low(hold, n) == Num(B, pos, n)
  {
    var a, b := B[pos..pos + n], B[pos + n..];
    assert B[pos..] == a + b;
    ValOfAppend(a, b);
    assert ValOf(a) < Pow2(|a|);
    Join(ValOf(b), ValOf(a), n);
  }

  lemma HoldsPull(B: Bits, pos: nat, hold: nat, bits: nat, b: byte)
    requires Holds(B, pos, hold, bits)
    ensures Holds(B + BitsOf(b, 8), pos, hold + Shl(b, bits), bits + 8)
  {
    hide Pow2;
    assert (B + BitsOf(b, 8))[pos..] == B[pos..] + BitsOf(b, 8);
    ValOfAppend(B[pos..], BitsOf(b, 8));
    ValOfBitsOf(b, 8);
    Powers();
    Small(b, 8);
  }

  lemma HoldsNothing(B: Bits)
    ensures Holds(B, |B|, 0, 0)
  {
    assert B[|B|..] == [];
  }

  lemma GivenMore(given: seq<byte>, b: byte)
    ensures BytesBits(given + [b]) == BytesBits(given) + BitsOf(b, 8)
  {
    assert (given + [b])[..|given|] == given;
  }

  lemma NothingRead(given: seq<byte>, input: seq<byte>, n: nat)
    requires n <= |input|
    ensures given + input[n..n] == given
  {
  }

  lemma OneRead(given: seq<byte>, input: seq<byte>, n: nat, k: nat)
    requires n <= k < |input|
    ensures given + input[n..k] + [input[k]] == given + input[n..k + 1]
  {
  }

  class BitReader {
    /** The low bits bits of hold are the next bits of the stream. */
    var hold: nat
    var bits: nat
    /** The input of this call, and how much of it has been read. */
    var input: seq<byte>
    var next: nat
    /** All bytes read so far. */
    ghost var given: seq<byte>

    ghost function Stream(): (B: Bits)
      reads this
    {
      BytesBits(given)
    }

    /** The number of bits consumed. */
    ghost function Pos(): nat
      requires bits <= 8 * |given|
      reads this
    {
      8 * |given| - bits
    }

    ghost predicate Valid()
      reads this
    {
      bits <= 8 * |given| && next <= |input| && bits <= 32 && Holds(Stream(), Pos(), hold, bits)
    }

    constructor ()
      ensures Valid() && given == [] && Pos() == 0 && bits == 0 && input == [] && next == 0
    {
      hold, bits, input, next, given := 0, 0, [], 0, [];
      new;
      assert BytesBits([]) == [];
      HoldsNothing([]);
    }

    /** The bytes of input read since, for a state in which next was n. */
    ghost predicate Read(given0: seq<byte>, n: nat)
      reads this
    {
      n <= next <= |input| && given == given0 + input[n..next]
    }

    /** PULLBYTE: one more byte; no bit falls off the 32-bit accumulator. */
    method PullByte()
      requires Valid() && next < |input| && bits <= 24
      modifies `hold, `bits, `next, `given
      ensures Valid() && Pos() == old(Pos()) && bits == old(bits) + 8 && next == old(next) + 1
      ensures given == old(given) + [input[old(next)]] && hold == old(hold) + Shl(input[old(next)], old(bits))
    {
      hide Holds, Shl;
      GivenMore(given, input[next]);
      HoldsPull(Stream(), Pos(), hold, bits, input[next]);
      given := given + [input[next]];
      hold := hold + Shl(input[next], bits);
      next := next + 1;
      bits := bits + 8;
    }

    /** NEEDBITS: false if the input runs out first. */
    method NeedBits(n: nat) returns (ok: bool)
      requires Valid() && n <= 32 && (n > 24 ==> bits % 8 == 0 && n == 32)
      modifies `hold, `bits, `next, `given
      ensures Valid() && Pos() == old(Pos()) && Read(old(given), old(next))
      ensures if ok then bits >= n else bits < n && next == |input|
      ensures given == old(given) || bits < n + 8
      ensures old(given) <= given && |given| - |old(given)| == next - old(next)
      ensures n == 32 && old(bits) % 8 == 0 ==> bits % 8 == 0
    {
      hide Holds, BytesBits, Shl;
      NothingRead(given, input, next);
      while bits < n
        invariant Valid() && Pos() == old(Pos()) && Read(old(given), old(next)) && next >= old(next)
        invariant given == old(given) || bits < n + 8
        invariant n == 32 && old(bits) % 8 == 0 ==> bits % 8 == 0
        decreases n - bits
      {
        if next == |input| {
          return false;
        }
        OneRead(old(given), input, old(next), next);
        PullByte();
      }
      ok := true;
    }

    /** BITS(n). */
    function Peek(n: nat): (r: nat)
      requires Valid() && n <= bits
      reads this
      ensures Pos() + n <= |Stream()| && r == Num(Stream(), Pos(), n)
    {
      HoldsDrop(Stream(), Pos(), hold, bits, n);
      Low(hold, n)
    }

    /** DROPBITS(n). */
    method DropBits(n: nat)
      requires Valid() && n <= bits
      modifies `hold, `bits
      ensures Valid() && Pos() == old(Pos()) + n && bits == old(bits) - n && hold == Shr(old(hold), n)
    {
      HoldsDrop(Stream(), Pos(), hold, bits, n);
      hold := Shr(hold, n);
      bits := bits - n;
    }

    /** BITS(n) followed by DROPBITS(n). */
    method GetBits(n: nat) returns (v: nat)
      requires Valid() && n <= bits
      modifies `hold, `bits
      ensures Valid() && Pos() == old(Pos()) + n && bits == old(bits) - n
      ensures old(Pos()) + n <= |Stream()| && v == Num(Stream(), old(Pos()), n)
    {
      v := Peek(n);
      DropBits(n);
    }

    /** BYTEBITS: goes to a byte boundary. */
    method ByteBits()
      requires Valid()
      modifies `hold, `bits
      ensures Valid() && Pos() == Align(old(Pos())) && bits == old(bits) - old(bits) % 8
    {
      AlignBits(8 * |given|, bits);
      DropBits(bits % 8);
    }

    /** Gives whole unread bytes back to the input. */
    method GiveBack()
      requires Valid() && bits / 8 <= next && bits / 8 <= |given|
      modifies this`hold, this`bits, this`next, this`given
      ensures Valid() && bits < 8 && Pos() == old(Pos()) && next == old(next) - old(bits) / 8
      ensures given == old(given)[..|old(given)| - old(bits) / 8]
    {
      hide Holds, BytesBits;
      var len := bits / 8;
      GivenLess(given, len, Pos(), hold, bits);
      next := next - len;
      bits := bits - 8 * len;
      hold := Low(hold, bits);
      given := given[..|given| - len];
    }

    /** Skips n bytes of input that the caller has copied; no bits may be held. */
    method TakeBytes(n: nat)
      requires Valid() && bits == 0 && next + n <= |input|
      modifies `next, `given
      ensures Valid() && bits == 0 && next == old(next) + n && given == old(given) + input[old(next)..next]
    {
      BytesBitsAppend(given, input[next..next + n]);
      assert hold == 0;
      given := given + input[next..next + n];
      next := next + n;
      assert Stream()[Pos()..] == [];
    }

    /** INITBITS: forgets all bits held. */
    method InitBits()
      requires Valid()
      modifies `hold, `bits
      ensures Valid() && bits == 0 && Pos() == old(Pos()) + old(bits)
    {
      HoldsNothing(Stream());
      hold := 0;
      bits := 0;
    }
  }

  lemma GivenLess(given: seq<byte>, n: nat, pos: nat, hold: nat, bits: nat)
    requires n <= |given| && 8 * n <= bits && Holds(BytesBits(given), pos, hold, bits)
    ensures Holds(BytesBits(given[..|given| - n]), pos, Low(hold, bits - 8 * n), bits - 8 * n)
  {
    hide BytesBits;
    var k := |given| - n;
    assert given == given[..k] + given[k..];
    BytesBitsAppend(given[..k], given[k..]);
    Lengths(given[..k]);
    Lengths(given[k..]);
    var B, B1 := BytesBits(given), BytesBits(given[..k]);
    HoldsDrop(B, pos, hold, bits, bits - 8 * n);
    assert B[pos..pos + bits - 8 * n] == B1[pos..];
  }

  lemma Lengths(s: seq<byte>)
    ensures |BytesBits(s)| == 8 * |s|
  {
  }

  lemma AlignBits(total: nat, bits: nat)
    requires total % 8 == 0 && bits <= total
    ensures Align(total - bits) == total - bits + bits % 8
  {
  }
}
