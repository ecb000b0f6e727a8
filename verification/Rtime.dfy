/**
 The rtime compressor of JFFS2 (compr_rtime.c): pairs of a byte and the length of a run copied from behind its last
 occurrence.
 */
module Rtime {
  import opened Bits
  import opened Format

  type Short = x: int | -32768 <= x <= 32767

  /** What the decoder has produced, and for each byte value the place behind its last verbatim occurrence. */
  datatype Decoder = Decoder(out: seq<byte>, positions: seq<nat>)

  predicate Places(positions: seq<nat>, pos: nat)
  {
    |positions| == 256 && forall v :: 0 <= v < 256 ==> positions[v] <= pos
  }

  /** out followed by n bytes copied from place back on, which may be among those just copied. */
  function Copied(out: seq<byte>, back: nat, n: nat): (r: seq<byte>)
    requires back < |out|
    ensures |r| == |out| + n && out <= r
  {
    if n == 0 then out
    else
      var o := Copied(out, back, n - 1);
      o + [o[back + n - 1]]
  }

  /** One pair: the byte, and repeat bytes from behind its last occurrence. */
  function Put(d: Decoder, value: byte, repeat: byte): (r: Decoder)
    requires Places(d.positions, |d.out|)
    ensures Places(r.positions, |r.out|) && |r.out| == |d.out| + 1 + repeat && d.out <= r.out
  {
    var out := d.out + [value];
    Decoder(Copied(out, d.positions[value], repeat), d.positions[value := |out|])
  }

  /** What the pairs from place pos on produce, until there are destlen bytes; None if the pairs run out before. */
  function Unpack(data: seq<byte>, pos: nat, d: Decoder, destlen: nat): (r: Option<seq<byte>>)
    requires Places(d.positions, |d.out|) && pos <= |data|
    ensures r.Some? ==> d.out <= r.value
    decreases |data| - pos
  {
    if |d.out| >= destlen then Some(d.out)
    else if pos + 2 > |data| then None
    else Unpack(data, pos + 2, Put(d, data[pos], data[pos + 1]), destlen)
  }

  function Nowhere(): (r: seq<nat>)
    ensures Places(r, 0)
  {
    seq(256, _ => 0)
  }

  const EMPTY := Decoder([], Nowhere())

  // ---------- decompression ----------

  lemma CopyOne(out: seq<byte>, back: nat, n: nat)
    requires back < |out|
    ensures Copied(out, back, n + 1) == Copied(out, back, n) + [Copied(out, back, n)[back + n]]
  {
  }

  /** A run that ends before the output so far does is plainly copied. */
  lemma {:induction false} PlainCopy(out: seq<byte>, back: nat, n: nat)
    requires back + n <= |out| && back < |out|
    ensures Copied(out, back, n) == out + out[back..back + n]
  {
    if n > 0 {
      PlainCopy(out, back, n - 1);
      assert out[back..back + n] == out[back..back + n - 1] + [out[back + n - 1]];
    }
  }

  method PutByte(a: array<byte>, i: nat, b: byte)
    requires i < a.Length
    modifies a
    ensures a[..i + 1] == old(a[..i]) + [b] && a[i + 1..] == old(a[i + 1..])
  {
    a[i] := b;
  }

  /** while (repeat): byte by byte. */
  method CopyLoop(out: array<byte>, outpos0: nat, backoffs0: nat, repeat0: nat) returns (outpos: nat)
    requires backoffs0 < outpos0 && outpos0 + repeat0 <= out.Length
    modifies out
    ensures outpos == outpos0 + repeat0 && out[..outpos] == Copied(old(out[..outpos0]), backoffs0, repeat0)
    ensures out[outpos..] == old(out[outpos0 + repeat0..])
  {
    outpos := outpos0;
    var backoffs: nat, repeat: nat := backoffs0, repeat0;
    ghost var o := out[..outpos];
    while repeat != 0
      invariant repeat <= repeat0 && outpos == outpos0 + (repeat0 - repeat)
      invariant backoffs == backoffs0 + (repeat0 - repeat)
      invariant out[..outpos] == Copied(o, backoffs0, repeat0 - repeat)
      invariant out[outpos0 + repeat0..] == old(out[outpos0 + repeat0..])
      decreases repeat
    {
      CopyOne(o, backoffs0, repeat0 - repeat);
      assert out[backoffs] == out[..outpos][backoffs];
      ghost var rest := out[outpos + 1..];
      assert rest[repeat - 1..] == out[outpos0 + repeat0..];
      PutByte(out, outpos, out[backoffs]);
      assert out[outpos + 1..][repeat - 1..] == out[outpos0 + repeat0..];
      outpos := outpos + 1;
      backoffs := backoffs + 1;
      repeat := repeat - 1;
    }
  }

  /** memcpy, for ranges that do not overlap. */
  method MemCpy(out: array<byte>, to: nat, from: nat, n: nat)
    requires from + n <= to && to + n <= out.Length
    modifies out
    ensures out[..to + n] == old(out[..to] + out[from..from + n]) && out[to + n..] == old(out[to + n..])
  {
    forall i | 0 <= i < n {
      out[to + i] := out[from + i];
    }
    assert out[..to] == old(out[..to]);
    assert out[to..to + n] == old(out[from..from + n]);
    assert out[..to + n] == out[..to] + out[to..to + n];
  }

  /** The run of a pair, by the byte loop or by memcpy. */
  method PutRun(out: array<byte>, outpos0: nat, backoffs: nat, repeat: nat) returns (outpos: nat)
    requires backoffs < outpos0 && outpos0 + repeat <= out.Length
    modifies out
    ensures outpos == outpos0 + repeat && out[..outpos] == Copied(old(out[..outpos0]), backoffs, repeat)
    ensures out[outpos..] == old(out[outpos0 + repeat..])
  {
    outpos := outpos0;
    if repeat != 0 {
      if backoffs + repeat >= outpos {
        outpos := CopyLoop(out, outpos, backoffs, repeat);
      } else {
        ghost var o := out[..outpos];
        PlainCopy(o, backoffs, repeat);
        assert o[backoffs..backoffs + repeat] == out[backoffs..backoffs + repeat];
        MemCpy(out, outpos, backoffs, repeat);
        outpos := outpos + repeat;
      }
    }
  }

  lemma UnpackOnce(data: seq<byte>, pos: nat, d: Decoder, destlen: nat)
    requires Places(d.positions, |d.out|) && pos <= |data| && |d.out| < destlen && Unpack(data, pos, d, destlen).Some?
    ensures pos + 2 <= |data|
    ensures Unpack(data, pos, d, destlen) == Unpack(data, pos + 2, Put(d, data[pos], data[pos + 1]), destlen)
    ensures |d.out| + 1 + data[pos + 1] <= |Unpack(data, pos, d, destlen).value|
  {
  }

  /** The places recorded. */
  ghost predicate Recorded(positions: seq<Short>, places: seq<nat>)
  {
    |positions| == 256 == |places| && forall i :: 0 <= i < 256 ==> positions[i] == places[i]
  }

  /** One turn of the loop of jffs2_rtime_decompress. */
  method OnePair(data: seq<byte>, pos0: nat, out: array<byte>, outpos0: nat, positions: array<Short>, ghost d: Decoder)
    returns (pos: nat, outpos: nat)
    requires pos0 + 2 <= |data| && positions.Length == 256 && outpos0 <= out.Length && (positions as object) != out
    requires d.out == out[..outpos0] && Recorded(positions[..], d.positions) && Places(d.positions, outpos0)
    requires outpos0 < 32767 && outpos0 + 1 + data[pos0 + 1] <= out.Length
    modifies out, positions
    ensures pos == pos0 + 2 && outpos == outpos0 + 1 + data[pos0 + 1]
    ensures out[..outpos] == Put(d, data[pos0], data[pos0 + 1]).out
    ensures Recorded(positions[..], Put(d, data[pos0], data[pos0 + 1]).positions)
    ensures out[outpos..] == old(out[outpos0 + 1 + data[pos0 + 1]..])
  {
    pos, outpos := pos0, outpos0;
    var value := data[pos];
    pos := pos + 1;
    ghost var rest := out[outpos + 1..];
    PutByte(out, outpos, value);
    outpos := outpos + 1;
    var repeat := data[pos];
    pos := pos + 1;
    assert rest[repeat..] == out[outpos + repeat..];
    var backoffs := positions[value];
    assert backoffs == d.positions[value];
    positions[value] := outpos;
    outpos := PutRun(out, outpos, backoffs, repeat);
  }

  /** jffs2_rtime_decompress: what the format says, wherever the pairs suffice and the output fits. */
  method Decompress(data: seq<byte>, out: array<byte>, destlen: nat) returns (outpos: nat)
    requires destlen <= 32767
    requires Unpack(data, 0, EMPTY, destlen).Some? && |Unpack(data, 0, EMPTY, destlen).value| <= out.Length
    modifies out
    ensures outpos <= out.Length && out[..outpos] == Unpack(data, 0, EMPTY, destlen).value
    ensures out[outpos..] == old(out[outpos..])
  {
    hide Unpack, Put, Places;
    var positions := new Short[256](_ => 0);
    var pos: nat := 0;
    outpos := 0;
    ghost var d := EMPTY;
    assert Recorded(positions[..], d.positions);
    while outpos < destlen
      invariant pos <= |data| && outpos <= out.Length && d.out == out[..outpos]
      invariant out[outpos..] == old(out[..])[outpos..]
      invariant Recorded(positions[..], d.positions) && Places(d.positions, |d.out|)
      invariant Unpack(data, pos, d, destlen) == Unpack(data, 0, EMPTY, destlen)
      decreases destlen - outpos
    {
      UnpackOnce(data, pos, d, destlen);
      ghost var d1 := Put(d, data[pos], data[pos + 1]);
      ghost var o := out[..];
      Later(o, old(out[..]), outpos, outpos + 1 + data[pos + 1]);
      pos, outpos := OnePair(data, pos, out, outpos, positions, d);
      d := d1;
    }
    UnpackAll(data, pos, d, destlen);
    assert old(out[..])[outpos..] == old(out[outpos..]);
  }

  lemma Later(a: seq<byte>, b: seq<byte>, i: nat, j: nat)
    requires i <= j <= |a| == |b| && a[i..] == b[i..]
    ensures a[j..] == b[j..]
  {
    assert a[j..] == a[i..][j - i..];
    assert b[j..] == b[i..][j - i..];
  }

  lemma UnpackAll(data: seq<byte>, pos: nat, d: Decoder, destlen: nat)
    requires Places(d.positions, |d.out|) && pos <= |data| && |d.out| >= destlen
    ensures Unpack(data, pos, d, destlen) == Some(d.out)
  {
  }

  // ---------- compression ----------

  /** How far the bytes from pos on repeat those from back on, for a run of n so far; at most 255. */
  function RunLength(data: seq<byte>, back: nat, pos: nat, n: nat): (r: nat)
    requires back < pos <= |data| && n <= 255
    ensures n <= r <= 255 && pos + (r - n) <= |data|
    decreases |data| - pos
  {
    if pos < |data| && data[pos] == data[back] && n < 255 then RunLength(data, back + 1, pos + 1, n + 1) else n
  }

  /** The run copies what is there. */
  lemma {:induction false} RunCopies(data: seq<byte>, back: nat, pos: nat, n: nat)
    requires n <= back && back < pos <= |data| && n <= 255 && n < pos
    requires back - n < pos - n && data[..pos] == Copied(data[..pos - n], back - n, n)
    ensures var r := RunLength(data, back, pos, n);
            data[..pos + (r - n)] == Copied(data[..pos - n], back - n, r)
    decreases |data| - pos
  {
    if pos < |data| && data[pos] == data[back] && n < 255 {
      assert data[..pos + 1] == data[..pos] + [data[pos]];
      RunCopies(data, back + 1, pos + 1, n + 1);
    }
  }

  /** And it is the longest that does. */
  lemma {:induction false} RunIsLongest(data: seq<byte>, back: nat, pos: nat, n: nat)
    requires back < pos <= |data| && n <= 255
    ensures var k := RunLength(data, back, pos, n) - n;
            data[pos..pos + k] == data[back..back + k] && (n + k == 255 || pos + k == |data|
                || data[pos + k] != data[back + k])
    decreases |data| - pos
  {
    if pos < |data| && data[pos] == data[back] && n < 255 {
      RunIsLongest(data, back + 1, pos + 1, n + 1);
      var k := RunLength(data, back + 1, pos + 1, n + 1) - n - 1;
      assert data[pos..pos + 1 + k] == [data[pos]] + data[pos + 1..pos + 1 + k];
      assert data[back..back + 1 + k] == [data[back]] + data[back + 1..back + 1 + k];
    }
  }

  /** The pairs for data from pos on, with outpos bytes of the room taken, and where they end. */
  function Pack(data: seq<byte>, pos: nat, positions: seq<nat>, outpos: nat, dstlen: nat): (r: (seq<byte>, nat))
    requires pos <= |data| && Places(positions, pos) && dstlen >= 2
    ensures pos <= r.1 <= |data| && (outpos <= dstlen ==> outpos + |r.0| <= dstlen)
    ensures r.1 < |data| ==> outpos + |r.0| > dstlen - 2
    decreases |data| - pos
  {
    if pos < |data| && outpos <= dstlen - 2 then
      var value := data[pos];
      var run := RunLength(data, positions[value], pos + 1, 0);
      var rest := Pack(data, pos + 1 + run, positions[value := pos + 1], outpos + 2, dstlen);
      ([value, run] + rest.0, rest.1)
    else ([], pos)
  }

  /** A pair puts back the bytes it was made for. */
  lemma PairIs(data: seq<byte>, pos: nat, positions: seq<nat>)
    requires pos < |data| && Places(positions, pos)
    ensures var value := data[pos];
            var run := RunLength(data, positions[value], pos + 1, 0);
            Put(Decoder(data[..pos], positions), value, run) == Decoder(data[..pos + 1 + run],
                positions[value := pos + 1])
  {
    hide RunLength;
    RunCopies(data, positions[data[pos]], pos + 1, 0);
    assert data[..pos + 1] == data[..pos] + [data[pos]];
  }

  /** What was packed is unpacked to what it was packed from. */
  lemma {:induction false} PackUnpack(data: seq<byte>, pos: nat, positions: seq<nat>, outpos: nat, dstlen: nat,
                                      pre: seq<byte>)
    requires pos <= |data| && Places(positions, pos) && dstlen >= 2
    ensures var p := Pack(data, pos, positions, outpos, dstlen);
            Unpack(pre + p.0, |pre|, Decoder(data[..pos], positions), p.1) == Some(data[..p.1])
    decreases |data| - pos
  {
    hide RunLength, Unpack, Put;
    var p := Pack(data, pos, positions, outpos, dstlen);
    var d := Decoder(data[..pos], positions);
    if pos < |data| && outpos <= dstlen - 2 {
      var value := data[pos];
      var run := RunLength(data, positions[value], pos + 1, 0);
      var rest := Pack(data, pos + 1 + run, positions[value := pos + 1], outpos + 2, dstlen);
      assert pre + p.0 == pre + [value, run] + rest.0;
      PackUnpack(data, pos + 1 + run, positions[value := pos + 1], outpos + 2, dstlen, pre + [value, run]);
      PairIs(data, pos, positions);
      UnpackMore(pre + p.0, |pre|, d, p.1);
    } else {
      UnpackAll(pre + p.0, |pre|, d, p.1);
    }
  }

  lemma UnpackMore(data: seq<byte>, pos: nat, d: Decoder, destlen: nat)
    requires Places(d.positions, |d.out|) && pos + 2 <= |data| && |d.out| < destlen
    ensures Unpack(data, pos, d, destlen) == Unpack(data, pos + 2, Put(d, data[pos], data[pos + 1]), destlen)
  {
  }

  /** The inner loop: pos goes on while the bytes repeat. */
  method FindRun(data: seq<byte>, back0: nat, pos0: nat) returns (pos: nat, runlen: byte)
    requires back0 < pos0 <= |data|
    ensures runlen == RunLength(data, back0, pos0, 0) && pos == pos0 + runlen
  {
    pos, runlen := pos0, 0;
    var backpos := back0;
    while backpos < pos && pos < |data| && data[pos] == data[backpos] && runlen < 255
      invariant pos == pos0 + runlen && backpos == back0 + runlen && pos <= |data|
      invariant RunLength(data, backpos, pos, runlen) == RunLength(data, back0, pos0, 0)
      decreases |data| - pos
    {
      backpos := backpos + 1;
      pos := pos + 1;
      runlen := runlen + 1;
    }
  }

  /** One turn of the loop of jffs2_rtime_compress. */
  method OneStep(data: seq<byte>, pos0: nat, out: array<byte>, outpos0: nat, positions: array<Short>,
                 ghost places: seq<nat>)
    returns (pos: nat, outpos: nat)
    requires pos0 < |data| <= 32767 && outpos0 + 2 <= out.Length && positions.Length == 256
    requires (positions as object) != out
    requires Recorded(positions[..], places) && Places(places, pos0)
    modifies out, positions
    ensures var value := data[pos0];
            var run := RunLength(data, places[value], pos0 + 1, 0);
            && pos == pos0 + 1 + run && outpos == outpos0 + 2 && out[..outpos] == old(out[..outpos0]) + [value, run]
            && Recorded(positions[..], places[value := pos0 + 1])
    ensures out[outpos..] == old(out[outpos0 + 2..])
  {
    pos, outpos := pos0, outpos0;
    var value := data[pos];
    ghost var rest := out[outpos + 1..];
    PutByte(out, outpos, data[pos]);
    outpos := outpos + 1;
    pos := pos + 1;
    var backpos := positions[value];
    assert backpos == places[value];
    positions[value] := pos;
    var runlen;
    pos, runlen := FindRun(data, backpos, pos);
    assert out[outpos + 1..] == rest[1..];
    PutByte(out, outpos, runlen);
    outpos := outpos + 1;
  }

  /**
   jffs2_rtime_compress: None if nothing was gained; otherwise how much of the source was packed, and
   how long the pairs for it are.
   */
  method Compress(data: seq<byte>, out: array<byte>, dstlen: nat) returns (r: Option<Packed>)
    requires |data| <= 32767 && 2 <= dstlen <= out.Length
    modifies out
    ensures var p := Pack(data, 0, Nowhere(), 0, dstlen);
            && out[..|p.0|] == p.0 && out[|p.0|..] == old(out[|p.0|..])
            && r == if |p.0| >= p.1 then None else Some(Packed(p.1, |p.0|))
  {
    hide Pack, Places;
    var positions := new Short[256](_ => 0);
    var outpos: nat, pos: nat := 0, 0;
    ghost var places: seq<nat>, done: seq<byte> := Nowhere(), [];
    ghost var p := Pack(data, 0, Nowhere(), 0, dstlen);
    assert Recorded(positions[..], places);
    assert [] + p.0 == p.0;
    PackBounds(data, 0, places, 0, dstlen);
    while pos < |data| && outpos <= dstlen - 2
      invariant pos <= |data| && outpos <= dstlen && Recorded(positions[..], places) && Places(places, pos)
      invariant done == out[..outpos] && p.0 == done + Pack(data, pos, places, outpos, dstlen).0
      invariant p.1 == Pack(data, pos, places, outpos, dstlen).1
      invariant out[outpos..] == old(out[..])[outpos..]
      decreases |data| - pos
    {
      var value := data[pos];
      PackOnce(data, pos, places, outpos, dstlen);
      ghost var run := RunLength(data, PlaceOf(places, pos, value), pos + 1, 0);
      ghost var places1 := places[value := pos + 1];
      ghost var rest := Pack(data, pos + 1 + run, places1, outpos + 2, dstlen).0;
      assert done + ([value, run] + rest) == done + [value, run] + rest;
      Later(out[..], old(out[..]), outpos, outpos + 2);
      pos, outpos := OneStep(data, pos, out, outpos, positions, places);
      places, done := places1, done + [value, run];
    }
    PackNothing(data, pos, places, outpos, dstlen);
    assert done + [] == done;
    assert old(out[..])[outpos..] == old(out[outpos..]);
    if outpos >= pos {
      return None;
    }
    r := Some(Packed(pos, outpos));
  }

  /** The two lengths that a successful compress gives back. */
  datatype Packed = Packed(sourcelen: nat, dstlen: nat)

  function PlaceOf(positions: seq<nat>, pos: nat, value: byte): (r: nat)
    requires Places(positions, pos)
    ensures r <= pos
  {
    positions[value]
  }

  lemma PackBounds(data: seq<byte>, pos: nat, positions: seq<nat>, outpos: nat, dstlen: nat)
    requires pos <= |data| && Places(positions, pos) && dstlen >= 2 && outpos <= dstlen
    ensures outpos + |Pack(data, pos, positions, outpos, dstlen).0| <= dstlen
  {
  }

  lemma PackOnce(data: seq<byte>, pos: nat, positions: seq<nat>, outpos: nat, dstlen: nat)
    requires pos < |data| && Places(positions, pos) && 2 <= dstlen && outpos <= dstlen - 2
    ensures var value := data[pos];
            var run := RunLength(data, PlaceOf(positions, pos, value), pos + 1, 0);
            && |positions| == 256 && Places(positions[value := pos + 1], pos + 1 + run)
            && var rest := Pack(data, pos + 1 + run, positions[value := pos + 1], outpos + 2, dstlen);
               Pack(data, pos, positions, outpos, dstlen) == ([value, run] + rest.0, rest.1)
  {
  }

  lemma PackNothing(data: seq<byte>, pos: nat, positions: seq<nat>, outpos: nat, dstlen: nat)
    requires pos <= |data| && Places(positions, pos) && dstlen >= 2 && !(pos < |data| && outpos <= dstlen - 2)
    ensures Pack(data, pos, positions, outpos, dstlen) == ([], pos)
  {
  }

  /** A pack that succeeds is not empty. */
  lemma PackSome(data: seq<byte>, dstlen: nat)
    requires dstlen >= 2
    ensures var p := Pack(data, 0, Nowhere(), 0, dstlen);
            |p.0| < p.1 ==> |p.0| > 0
  {
    if data == [] {
      PackNothing(data, 0, Nowhere(), 0, dstlen);
    }
  }

  /**
   Round trip: whatever compress has packed, decompress gives back when it is asked for as many bytes
   as were packed; the pairs fit the room given, and when compress succeeds they are shorter.
   */
  lemma RoundTrip(data: seq<byte>, dstlen: nat)
    requires dstlen >= 2
    ensures var p := Pack(data, 0, Nowhere(), 0, dstlen);
            && |p.0| <= dstlen && Unpack(p.0, 0, EMPTY, p.1) == Some(data[..p.1])
            && (p.1 == |data| || |p.0| > dstlen - 2)
  {
    PackUnpack(data, 0, Nowhere(), 0, dstlen, []);
    assert [] + Pack(data, 0, Nowhere(), 0, dstlen).0 == Pack(data, 0, Nowhere(), 0, dstlen).0;
    assert data[..0] == [];
  }
}
