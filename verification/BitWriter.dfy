/** The 16-bit output buffer of trees.c: send_bits, put_short, bi_flush, bi_windup and copy_block. */
module BitWriting {
  import opened Shift
  import opened Bits
  import opened BlockRoundTrip
  import opened Format
  import opened FormatFacts

  const BUF_SIZE := 16

  /** buf | (value << valid), cut to the 16 bits of bi_buf: buf has no bits from valid on, so the or is a sum. */
  function OrShifted(buf: nat, value: nat, valid: nat): nat
  {
    buf + Low(Shl(value, valid), BUF_SIZE)
  }

  lemma {:induction false} LowOfShifted(buf: nat, value: nat, valid: nat, n: nat)
    requires buf < Pow2(valid) && valid <= n
    ensures buf + Low(Shl(value, valid), n) == Low(buf + Shl(value, valid), n)
  {
    if valid > 0 {
      assert Shl(value, valid) == 2 * Shl(value, valid - 1);
      LowOfShifted(buf / 2, value, valid - 1, n - 1);
      assert (buf + Shl(value, valid)) / 2 == buf / 2 + Shl(value, valid - 1);
    }
  }

  lemma {:induction false} ShrOfShifted(buf: nat, value: nat, valid: nat, n: nat)
    requires buf < Pow2(valid) && valid <= n
    ensures Shr(buf + Shl(value, valid), n) == Shr(value, n - valid)
  {
    if valid > 0 {
      assert (buf + Shl(value, valid)) / 2 == buf / 2 + Shl(value, valid - 1);
      ShrOfShifted(buf / 2, value, valid - 1, n - 1);
    }
  }

  /** The buffered bits followed by the new ones. */
  lemma Joined(buf: nat, valid: nat, value: nat, length: nat)
    requires buf < Pow2(valid)
    ensures BitsOf(buf + Shl(value, valid), valid + length) == BitsOf(buf, valid) + BitsOf(value, length)
  {
    BitsOfAppend(buf + Shl(value, valid), valid, length);
    Join(value, buf, valid);
    BitsOfLow(buf + Shl(value, valid), valid);
  }

  /** Everything fits: the new bits go on top of the buffered ones. */
  lemma Fits(buf: nat, valid: nat, value: nat, length: nat)
    requires buf < Pow2(valid) && value < Pow2(length) && valid + length <= BUF_SIZE
    ensures OrShifted(buf, value, valid) == buf + Shl(value, valid) < Pow2(valid + length)
    ensures BitsOf(OrShifted(buf, value, valid), valid + length) == BitsOf(buf, valid) + BitsOf(value, length)
  {
    hide BitsOf, Pow2, Low, Shr, Shl;
    Joined(buf, valid, value, length);
    ShlLess(value, Pow2(length), valid);
    ShlPow2(length, valid);
    Pow2Monotone(valid + length, BUF_SIZE);
    Small(Shl(value, valid), BUF_SIZE);
  }

  /** It does not: 16 bits go out, and the rest of the value stays in the buffer. */
  lemma Overflows(buf: nat, valid: nat, value: nat, length: nat)
    requires buf < Pow2(valid) && value < Pow2(length) && valid <= BUF_SIZE && length <= BUF_SIZE
    requires valid + length > BUF_SIZE
    ensures OrShifted(buf, value, valid) < Pow2(BUF_SIZE)
    ensures Shr(value, BUF_SIZE - valid) < Pow2(valid + length - BUF_SIZE)
    ensures BitsOf(OrShifted(buf, value, valid), BUF_SIZE) + BitsOf(Shr(value, BUF_SIZE - valid),
             valid + length - BUF_SIZE)
            == BitsOf(buf, valid) + BitsOf(value, length)
  {
    hide BitsOf, Pow2, Low, Shr, Shl;
    var all := buf + Shl(value, valid);
    var rest := valid + length - BUF_SIZE;
    Joined(buf, valid, value, length);
    LowOfShifted(buf, value, valid, BUF_SIZE);
    ShrOfShifted(buf, value, valid, BUF_SIZE);
    assert valid + length == BUF_SIZE + rest;
    BitsOfAppend(all, BUF_SIZE, rest);
    BitsOfLow(all, BUF_SIZE);
    assert length == rest + (BUF_SIZE - valid);
    ShrBound(value, rest, BUF_SIZE - valid);
  }

  lemma TwoBytes(w: nat)
    requires w < Pow2(BUF_SIZE)
    ensures Low(w, 8) < 256 && Shr(w, 8) < 256
    ensures BytesBits([Low(w, 8), Shr(w, 8)]) == BitsOf(w, BUF_SIZE)
  {
    Powers();
    ShrBound(w, 8, 8);
    var lo: byte, hi: byte := Low(w, 8), Shr(w, 8);
    assert [lo, hi] == [lo] + [hi];
    BytesBitsAppend([lo], [hi]);
    OneByte(lo);
    OneByte(hi);
    BitsOfLow(w, 8);
    BitsOfAppend(w, 8, 8);
  }

  /** The buffer, filled up with zero bits. */
  lemma {:induction false} Padded(buf: nat, valid: nat, n: nat)
    requires buf < Pow2(valid) && valid <= n
    ensures buf < Pow2(n)
    ensures BitsOf(buf, n) == BitsOf(buf, valid) + seq(n - valid, _ => false)
  {
    if valid > 0 {
      Padded(buf / 2, valid - 1, n - 1);
      assert BitsOf(buf, n) == [buf % 2 == 1] + (BitsOf(buf / 2, valid - 1) + seq(n - valid, _ => false));
    } else {
      ZeroBits(n);
      Pow2Monotone(0, n);
    }
  }

  lemma {:induction false} ZeroBits(n: nat)
    ensures BitsOf(0, n) == seq(n, _ => false)
  {
    if n > 0 {
      ZeroBits(n - 1);
    }
  }

  lemma NoBits(b: Bits)
    ensures b + BitsOf(0, 0) == b
  {
  }

  lemma NoValue(v: nat)
    requires v < Pow2(0)
    ensures v == 0
  {
  }

  lemma MoreBytes(output: seq<byte>, pending: seq<byte>, b: byte)
    ensures BytesBits(output + (pending + [b])) == BytesBits(output + pending) + BitsOf(b, 8)
  {
    assert output + (pending + [b]) == output + pending + [b];
    OneByte(b);
    BytesBitsAppend(output + pending, [b]);
  }

  class BitWriter {
    /** The bytes handed to the application, and those waiting in pending_buf. */
    var output: seq<byte>
    var pending: seq<byte>
    /** The bits that do not make up 16 yet: the low biValid bits of biBuf. */
    var biBuf: nat
    var biValid: nat

    ghost predicate Valid()
      reads this
    {
      biValid <= BUF_SIZE && biBuf < Pow2(biValid)
    }

    /** All bits sent so far. */
    ghost function Sent(): (b: Bits)
      reads this
    {
      BytesBits(output + pending) + BitsOf(biBuf, biValid)
    }

    constructor ()
      ensures Valid() && Sent() == [] && output == []
    {
      output, pending, biBuf, biValid := [], [], 0, 0;
    }

    method PutByte(b: byte)
      modifies `pending
      ensures pending == old(pending) + [b]
    {
      pending := pending + [b];
    }

    /** Output a short, low byte first. */
    method PutShort(w: nat)
      requires w < Pow2(BUF_SIZE)
      modifies `pending
      ensures BytesBits(output + pending) == BytesBits(output + old(pending)) + BitsOf(w, BUF_SIZE)
      ensures |pending| == |old(pending)| + 2
    {
      TwoBytes(w);
      ghost var before := pending;
      PutByte(Low(w, 8));
      PutByte(Shr(w, 8));
      assert output + pending == (output + before) + [Low(w, 8), Shr(w, 8)];
      BytesBitsAppend(output + before, [Low(w, 8), Shr(w, 8)]);
    }

    /** Sends the low length bits of value. */
    method SendBits(value: nat, length: nat)
      requires Valid() && length <= BUF_SIZE && value < Pow2(length)
      modifies this
      ensures Valid() && Sent() == old(Sent()) + BitsOf(value, length)
      ensures output == old(output)
    {
      hide OrShifted, BytesBits, BitsOf, Pow2, Low, Shl, Shr;
      if biValid > BUF_SIZE - length {
        Overflows(biBuf, biValid, value, length);
        var w := OrShifted(biBuf, value, biValid);
        ghost var before := BytesBits(output + pending);
        ghost var was := BitsOf(biBuf, biValid);
        PutShort(w);
        biBuf := Shr(value, BUF_SIZE - biValid);
        biValid := biValid + length - BUF_SIZE;
        assert before + BitsOf(w, BUF_SIZE) + BitsOf(biBuf, biValid) == before
            + (BitsOf(w, BUF_SIZE) + BitsOf(biBuf, biValid));
        assert before + (was + BitsOf(value, length)) == before + was + BitsOf(value, length);
      } else {
        Fits(biBuf, biValid, value, length);
        ghost var before := BytesBits(output + pending);
        ghost var was := BitsOf(biBuf, biValid);
        biBuf := OrShifted(biBuf, value, biValid);
        biValid := biValid + length;
        assert before + (was + BitsOf(value, length)) == before + was + BitsOf(value, length);
      }
    }

    /** Flushes the bit buffer, keeping at most 7 bits in it. */
    method BiFlush()
      requires Valid()
      modifies this
      ensures Valid() && Sent() == old(Sent()) && biValid < 8
      ensures output == old(output)
    {
      hide BitsOf, BytesBits, Pow2, Low, Shr;
      if biValid == BUF_SIZE {
        PutShort(biBuf);
        NoBits(BytesBits(output + pending));
        Powers();
        biBuf := 0;
        biValid := 0;
      } else if biValid >= 8 {
        ByteOut(biBuf, biValid, output + pending);
        PutByte(Low(biBuf, 8));
        assert output + pending == output + old(pending) + [Low(old(biBuf), 8)];
        biBuf := Shr(biBuf, 8);
        biValid := biValid - 8;
      }
    }

    /** Flushes the bit buffer and aligns the output on a byte boundary. */
    method BiWindup()
      requires Valid()
      modifies this
      ensures Valid() && Sent() == old(Sent()) + Padding(old(|Sent()|)) && biValid == 0
      ensures output == old(output)
    {
      hide BitsOf, BytesBits, Pow2, Padding, Align;
      ghost var before := BytesBits(output + pending);
      ghost var sent := Sent();
      NoBits(before);
      Powers();
      if biValid > 8 {
        Padded(biBuf, biValid, BUF_SIZE);
        PutShort(biBuf);
        NoBits(BytesBits(output + pending));
        WoundUp(before, biBuf, biValid, BUF_SIZE);
      } else if biValid > 0 {
        Padded(biBuf, biValid, 8);
        PutByte(biBuf);
        MoreBytes(output, old(pending), biBuf);
        NoBits(BytesBits(output + pending));
        WoundUp(before, biBuf, biValid, 8);
      } else {
        WoundUp(before, biBuf, biValid, 0);
      }
      biBuf := 0;
      biValid := 0;
    }

    /** Copies a stored block, its length and the complement of the length first. */
    method CopyBlock(buf: seq<byte>)
      requires Valid() && |buf| < 0x10000
      modifies this
      ensures Valid() && biValid == 0
      ensures Sent() == old(Sent()) + (Padding(old(|Sent()|))
               + ((BitsOf(|buf|, 16) + BitsOf(0xffff - |buf|, 16)) + BytesBits(buf)))
      ensures output == old(output)
    {
      hide BitsOf, BytesBits, Pow2, Padding, Align;
      BiWindup();
      ghost var at := Sent();
      NoBits(BytesBits(output + pending));
      Powers();
      assert biBuf == 0 by { NoValue(biBuf); }
      PutShort(|buf|);
      PutShort(0xffff - |buf|);
      ghost var p := output + pending;
      ghost var heads := BitsOf(|buf|, 16) + BitsOf(0xffff - |buf|, 16);
      Assoc(at, BitsOf(|buf|, 16), BitsOf(0xffff - |buf|, 16));
      var i := 0;
      while i < |buf|
        invariant i <= |buf| && biBuf == 0 && biValid == 0 && output == old(output)
        invariant output + pending == p + buf[..i]
      {
        PutByte(buf[i]);
        i := i + 1;
        assert p + buf[..i] == p + buf[..i - 1] + [buf[i - 1]];
      }
      assert buf[..i] == buf;
      BytesBitsAppend(p, buf);
      NoBits(BytesBits(p + buf));
      Assoc(at, heads, BytesBits(buf));
      Assoc(old(Sent()), Padding(old(|Sent()|)), heads + BytesBits(buf));
    }

    /** Hands over as much pending output as there is room for. */
    method FlushPending(availOut: nat) returns (left: nat)
      requires Valid()
      modifies this
      ensures Valid() && Sent() == old(Sent()) && old(output) <= output && output + pending == old(output + pending)
      ensures left + |output| == availOut + |old(output)|
      ensures (left == 0 || pending == []) && biValid == old(biValid)
    {
      var len := |pending|;
      if len > availOut {
        len := availOut;
      }
      output := output + pending[..len];
      pending := pending[len..];
      assert output + pending == old(output) + old(pending);
      left := availOut - len;
    }
  }

  lemma ByteOut(buf: nat, valid: nat, bytes: seq<byte>)
    requires 8 <= valid <= BUF_SIZE && buf < Pow2(valid)
    ensures Low(buf, 8) < 256 && Shr(buf, 8) < Pow2(valid - 8)
    ensures BytesBits(bytes + [Low(buf, 8)]) + BitsOf(Shr(buf, 8), valid - 8) == BytesBits(bytes) + BitsOf(buf, valid)
  {
    hide BitsOf, Pow2, Low, Shr, BytesBits;
    Powers();
    assert valid == (valid - 8) + 8;
    ShrBound(buf, valid - 8, 8);
    BitsOfAppend(buf, 8, valid - 8);
    BitsOfLow(buf, 8);
    OneByte(Low(buf, 8));
    BytesBitsAppend(bytes, [Low(buf, 8)]);
    Assoc(BytesBits(bytes), BitsOf(Low(buf, 8), 8), BitsOf(Shr(buf, 8), valid - 8));
  }

  lemma AlignUp(x: nat, valid: nat, n: nat)
    requires x % 8 == 0 && n % 8 == 0 && valid <= n < valid + 8
    ensures Align(x + valid) == x + n
  {
  }

  lemma Assoc(a: Bits, b: Bits, c: Bits)
    ensures a + (b + c) == a + b + c
  {
  }

  lemma WoundUp(before: Bits, buf: nat, valid: nat, n: nat)
    requires buf < Pow2(valid) && valid <= n < valid + 8 && n % 8 == 0 && |before| % 8 == 0
    ensures before + BitsOf(buf, n) == before + BitsOf(buf, valid) + Padding(|before| + valid)
  {
    hide BitsOf, Pow2, Align;
    Padded(buf, valid, n);
    AlignUp(|before|, valid, n);
    var pad := Padding(|before| + valid);
    assert pad == seq(n - valid, _ => false);
    Assoc(before, BitsOf(buf, valid), pad);
  }
}
