/**
 Distances that reach back before the first byte of output: inflate() rejects all of them, the fast loop of
 inflateBack() (infback.c, inffast.c) only some. Which it lets pass, and a stream on which the two decoders differ.
 */
module FarDistances {
  import opened Shift
  import opened Bits
  import opened Canonical
  import opened InfTreesSpec
  import opened Format
  import opened FormatFacts
  import opened BlockCode
  import opened BlockRoundTrip
  import opened Windows
  import opened InflateStates
  import opened Decoders
  import opened Inflating
  import opened BackInflating

  // ---------- what inflateBack lets pass ----------

  /**
   A distance that inflateBack lets pass when all input is at hand: it reaches back no further than the first byte; or
   the ends of stream and window are not near, and it is no more than the output together with the output at any
   symbol before that uses the same codes.
   */
  ghost predicate Passed(B: Bits, total: nat, w: seq<byte>, a: State)
  {
    || Near(B, a, |a.out| - |w|)
    || (&& !Late(total, w, a)
        && forall b :: Reach(B, Begin(w), b) && b.mode == Len(a.mode.c) && Reach(B, b, a) ==>
             Near(B, a, (|a.out| - |w|) + (|b.out| - |w|)))
  }

  lemma FarIsNotRejected(stream: seq<byte>, w: seq<byte>, given: seq<byte>, abs: State, offset: nat)
    requires given <= stream && Reach(BytesBits(given), Begin(w), abs) && abs.mode.DistExt?
    requires Passed(BytesBits(stream), 8 * |stream|, w, abs)
    requires Strict(BytesBits(given), 8 * |stream|, w, abs, offset)
    ensures !Rejected(BytesBits(given), abs, |abs.out| - |w|, offset)
  {
    hide Reach, BytesBits, Num, Begin;
    var B, B1 := BytesBits(stream), BytesBits(given);
    WholeStream(stream, given, w, abs);
    if Rejected(B1, abs, |abs.out| - |w|, offset) {
      SameNum(B, B1, abs);
      var b :| Reach(B1, Begin(w), b) && b.mode == Len(abs.mode.c) && Reach(B1, b, abs)
               && offset > (|abs.out| - |w|) + (|b.out| - |w|);
      WholeStream(stream, given, w, b);
      StillReaches(stream, given, w, b, abs);
      assert false;
    }
  }

  lemma StillReaches(stream: seq<byte>, given: seq<byte>, w: seq<byte>, a: State, b: State)
    requires given <= stream && Reach(BytesBits(given), Begin(w), a) && Reach(BytesBits(given), a, b)
    ensures Reach(BytesBits(stream), a, b)
  {
    hide Reach, Begin, GoodState;
    var more := stream[|given|..];
    assert stream == given + more;
    BytesBitsAppend(given, more);
    BeginGood(w);
    ReachGood(BytesBits(given), Begin(w), a);
    ReachLonger(BytesBits(given), BytesBits(more), a, b);
  }

  /** A state on the way to the end, or the end itself. */
  lemma OnTheRun(B: Bits, start: State, end: State, a: State)
    requires Reach(B, start, end) && end.mode.Done? && Reach(B, start, a)
    ensures a.out <= end.out && !a.mode.Bad?
    ensures a == end || (Next(B, a).Some? && !a.mode.Done? && Reach(B, Next(B, a).value, end))
  {
    hide Next;
    NoBranching(B, start, a, end);
    if Reach(B, end, a) {
      FinalIsLast(B, end, a);
    } else {
      var n: nat :| Steps(B, a, n) == Some(end);
      OutGrows(B, a, n);
      if n > 0 {
        assert Steps(B, Next(B, a).value, n - 1) == Some(end);
        FinalHasNone(B, a);
      }
    }
  }

  /**
   A stream whose distances all pass is decoded to its end by a call of inflateBack that has all of it at hand, even
   where inflate rejects it; what is before the first byte is what the window held.
   */
  lemma LetPass(stream: seq<byte>, end: State, w: seq<byte>, given: seq<byte>, abs: State, outs: seq<seq<byte>>,
                quota: nat, ret: BackRet, offset: nat)
    requires BackOutcome(stream, w, given, abs, outs, quota, ret, offset)
    requires Tolerant(stream, w, given, abs, ret, offset)
    requires Reach(BytesBits(stream), Begin(w), end) && end.mode.Done?
    requires forall a :: Reach(BytesBits(stream), Begin(w), a) ==> Passed(BytesBits(stream), 8 * |stream|, w, a)
    ensures !ret.BackDataError? && (ret.BackEnd? <==> |outs| <= quota)
    ensures |end.out| - |w| <= WSIZE * quota ==> ret.BackEnd?
    ensures ret.BackEnd? ==> end.out == w + Flat(outs) && 8 * |given| == end.pos
  {
    hide Reach, BytesBits, Next, Flat, Begin, Strict, Passed, Rejected;
    var B := BytesBits(stream);
    WholeStream(stream, given, w, abs);
    OnTheRun(B, Begin(w), end, abs);
    FinalHasNone(B, abs);
    if ret.BackDataError? {
      FarIsNotRejected(stream, w, given, abs, offset);
    } else if !ret.BackEnd? {
      FewWindowfuls(outs);
    }
  }

  // ---------- a stream on which the decoders differ ----------

  /**
   A stored block with the byte 97, a block with the fixed codes whose only token is a copy of length 3 and distance 2,
   and more input behind.
   */
  const SAMPLE: seq<byte> := [0, 1, 0, 254, 255, 97, 3, 66, 0, 0, 0, 0, 0, 0, 0, 0, 0, 0]

  // the number with hi behind lo, as bits
  lemma Cut(v: nat, m: nat, n: nat, lo: nat, hi: nat)
    requires lo < Pow2(m) && v == Shl(hi, m) + lo
    ensures BitsOf(v, m + n) == BitsOf(lo, m) + BitsOf(hi, n)
  {
    Join(hi, lo, m);
    BitsOfAppend(v, m, n);
    BitsOfLow(v, m);
  }

  lemma Shifts()
    ensures Pow2(3) == 8 && Pow2(5) == 32 && Pow2(7) == 128 && Pow2(8) == 256
    ensures Shl(255, 8) == 65280 && Shl(66, 8) == 16896 && Shl(2112, 3) == 16896 && Shl(16, 7) == 2048
    ensures Shl(0, 3) == Shl(0, 5) == Shl(0, 7) == Shl(0, 8) == 0
  {
    ShlOne(3);
    ShlOne(5);
    ShlOne(7);
    ShlOne(8);
    assert Pow2(4) == 16 && Shl(66, 4) == 1056 && Shl(255, 4) == 4080 && Shl(16, 3) == 128;
  }

  // the lengths of the stored block
  lemma SampleWords()
    ensures BitsOf(1, 16) == BitsOf(1, 8) + BitsOf(0, 8)
    ensures BitsOf(0xfffe, 16) == BitsOf(254, 8) + BitsOf(255, 8)
  {
    hide BitsOf, Shl, Pow2;
    Shifts();
    Cut(1, 8, 8, 1, 0);
    Cut(0xfffe, 8, 8, 254, 255);
  }

  // the second block: a header of 3 bits, and codes of 7, 5 and 7
  lemma SampleBlock()
    ensures BitsOf(3, 8) + (BitsOf(66, 8) + BitsOf(0, 8))
         == BitsOf(3, 3) + (BitsOf(64, 7) + (BitsOf(16, 5) + (BitsOf(0, 7) + BitsOf(0, 2))))
  {
    hide BitsOf, Shl, Pow2;
    Shifts();
    Cut(16899, 8, 16, 3, 66);
    Cut(66, 8, 8, 66, 0);
    Cut(16899, 3, 21, 3, 2112);
    Cut(2112, 7, 14, 64, 16);
    Cut(16, 5, 9, 16, 0);
    Cut(0, 7, 2, 0, 0);
  }

  lemma SampleCodeBits()
    ensures CodeBits(1, 7) == BitsOf(64, 7) && CodeBits(1, 5) == BitsOf(16, 5) && CodeBits(0, 7) == BitsOf(0, 7)
  {
    hide BitsOf, CodeBits;
    BitsOfRev(1, 7);
    BitsOfRev(1, 5);
    BitsOfRev(0, 7);
    assert Rev(1, 7) == 64 && Rev(1, 5) == 16 && Rev(0, 7) == 0;
  }

  /** A byte of a stream, as bits. */
  lemma ByteIsAt(s: seq<byte>, i: nat)
    requires i < |s|
    ensures At(BytesBits(s), 8 * i, BitsOf(s[i], 8))
  {
    hide BytesBits, BitsOf;
    var s0, s1 := s[..i], s[i + 1..];
    assert s == s0 + [s[i]] + s1;
    BytesBitsAppend(s0 + [s[i]], s1);
    BytesBitsSnoc(s0, s[i]);
  }

  // the codes of the end of the block, of length 3 and of distance 2
  lemma SampleCodes()
    ensures Code(FixedLens(), 256) == 0 && Code(FixedLens(), 257) == 1 && Code(FixedDists(), 1) == 1
  {
    FixedUsed(7);
    FivesUsed(5);
    FixedCountIs(288, 7);
    assert FixedLens()[..288] == FixedLens();
    FivesCount(32, 5);
    assert FixedDists()[..32] == FixedDists();
    assert Pow2(5) == 32;
    FixedCountIs(256, 7);
    FixedCountIs(257, 7);
    FivesCount(1, 5);
  }

  // the states of the machine on its way through the stream
  function InStored(w: seq<byte>): State { Begin(w).(mode := Stored, pos := 8) }

  function BeforeByte(w: seq<byte>): State { Begin(w).(mode := Copying(1), pos := 40) }

  function AfterByte(w: seq<byte>): State { Begin(w).(mode := Copying(0), pos := 48, out := w + [97]) }

  function Boundary(w: seq<byte>): State { Begin(w).(pos := 48, out := w + [97]) }

  function InFixed(w: seq<byte>): State { Boundary(w).(mode := Len(FixedCodes()), last := true, pos := 51) }

  function AtLength(w: seq<byte>): State { InFixed(w).(mode := LenExt(FixedCodes(), 3, 0), pos := 58) }

  function AtDistance(w: seq<byte>): State { InFixed(w).(mode := Mode.Dist(FixedCodes(), 3), pos := 58) }

  /** The distance 2 comes next, one byte after the start of the output. */
  function AtOffset(w: seq<byte>): State { InFixed(w).(mode := DistExt(FixedCodes(), 3, 2, 0), pos := 63) }

  /** The end, if there is something before the output. */
  function SampleEnd(w: seq<byte>): State
    requires w != []
  {
    State(Done, true, 72, w + SampleOut(w), [Copy(3, 2)])
  }

  function SampleOut(w: seq<byte>): seq<byte>
    requires w != []
  {
    var b := w[|w| - 1];
    [97, b, 97, b]
  }

  lemma SampleFirst()
    ensures At(BytesBits(SAMPLE), 0, HeaderBits(0, false))
  {
    hide BytesBits, BitsOf, At;
    ByteIsAt(SAMPLE, 0);
    Shifts();
    Cut(0, 3, 5, 0, 0);
    AtSplit(BytesBits(SAMPLE), 0, BitsOf(0, 3), BitsOf(0, 5));
  }

  lemma SampleLengths()
    ensures At(BytesBits(SAMPLE), 8, BitsOf(1, 16)) && At(BytesBits(SAMPLE), 24, BitsOf(0xfffe, 16))
  {
    hide BytesBits, BitsOf, At;
    SampleWords();
    ByteIsAt(SAMPLE, 1);
    ByteIsAt(SAMPLE, 2);
    ByteIsAt(SAMPLE, 3);
    ByteIsAt(SAMPLE, 4);
    AtSplit(BytesBits(SAMPLE), 8, BitsOf(1, 8), BitsOf(0, 8));
    AtSplit(BytesBits(SAMPLE), 24, BitsOf(254, 8), BitsOf(255, 8));
  }

  lemma SampleSecond()
    ensures At(BytesBits(SAMPLE), 48, HeaderBits(1, true))
    ensures At(BytesBits(SAMPLE), 51, SymBits(FixedLens(), 257))
    ensures At(BytesBits(SAMPLE), 58, SymBits(FixedDists(), 1))
    ensures At(BytesBits(SAMPLE), 63, SymBits(FixedLens(), 256))
  {
    hide BytesBits, BitsOf, CodeBits, Code, At;
    SampleBlock();
    SampleCodeBits();
    SampleCodes();
    var B := BytesBits(SAMPLE);
    ByteIsAt(SAMPLE, 6);
    ByteIsAt(SAMPLE, 7);
    ByteIsAt(SAMPLE, 8);
    AtSplit(B, 56, BitsOf(66, 8), BitsOf(0, 8));
    AtSplit(B, 48, BitsOf(3, 8), BitsOf(66, 8) + BitsOf(0, 8));
    AtSplit(B, 48, BitsOf(3, 3), BitsOf(64, 7) + (BitsOf(16, 5) + (BitsOf(0, 7) + BitsOf(0, 2))));
    AtSplit(B, 51, BitsOf(64, 7), BitsOf(16, 5) + (BitsOf(0, 7) + BitsOf(0, 2)));
    AtSplit(B, 58, BitsOf(16, 5), BitsOf(0, 7) + BitsOf(0, 2));
    AtSplit(B, 63, BitsOf(0, 7), BitsOf(0, 2));
  }

  /** The stored block, step by step. */
  lemma ToBoundary(w: seq<byte>)
    ensures var B := BytesBits(SAMPLE);
            && Next(B, Begin(w)) == Some(InStored(w)) && Next(B, InStored(w)) == Some(BeforeByte(w))
            && Next(B, BeforeByte(w)) == Some(AfterByte(w)) && Next(B, AfterByte(w)) == Some(Boundary(w))
  {
    hide BytesBits, BitsOf, At, Num, HeaderBits;
    var B := BytesBits(SAMPLE);
    SampleFirst();
    ReadHeader(B, Begin(w), 0, false);
    SampleLengths();
    Powers();
    NumOf(B, 8, 1, 16);
    NumOf(B, 24, 0xfffe, 16);
    ByteIsAt(SAMPLE, 5);
    ReadOneByte(B, BeforeByte(w), 97);
  }

  /** The states up to the boundary, none of which is inside a block with codes. */
  lemma FirstSteps(w: seq<byte>, a: State, n: nat)
    requires Steps(BytesBits(SAMPLE), Begin(w), n) == Some(a)
    ensures n >= 4 ==> Steps(BytesBits(SAMPLE), Boundary(w), n - 4) == Some(a)
    ensures n < 4 ==> !a.mode.Len? && !a.mode.DistExt?
  {
    hide BytesBits, Next;
    var B := BytesBits(SAMPLE);
    ToBoundary(w);
    if n >= 4 {
      assert Steps(B, Begin(w), n) == Steps(B, InStored(w), n - 1) == Steps(B, BeforeByte(w), n - 2);
    }
  }

  /** The second block up to the distance, step by step. */
  lemma SecondSteps(w: seq<byte>)
    ensures var B := BytesBits(SAMPLE);
            && Next(B, Boundary(w)) == Some(InFixed(w)) && Next(B, InFixed(w)) == Some(AtLength(w))
            && Next(B, AtLength(w)) == Some(AtDistance(w)) && Next(B, AtDistance(w)) == Some(AtOffset(w))
  {
    hide BytesBits, Next;
    HeaderStep(w);
    LengthStep(w);
    DistanceStep(w);
  }

  lemma HeaderStep(w: seq<byte>)
    ensures Next(BytesBits(SAMPLE), Boundary(w)) == Some(InFixed(w))
  {
    hide BytesBits, BitsOf, At, Num, HeaderBits, FixedCodes;
    SampleSecond();
    ReadHeader(BytesBits(SAMPLE), Boundary(w), 1, true);
  }

  lemma LengthStep(w: seq<byte>)
    ensures Next(BytesBits(SAMPLE), InFixed(w)) == Some(AtLength(w))
    ensures Next(BytesBits(SAMPLE), AtLength(w)) == Some(AtDistance(w))
  {
    hide BytesBits, BitsOf, At, Num, SymBits, Acceptable, ValidLens, Decode;
    FixedGood();
    SampleSecond();
    ReadLengthSymbol(BytesBits(SAMPLE), InFixed(w), 0);
    NoBitsNum(BytesBits(SAMPLE), 58);
  }

  lemma DistanceStep(w: seq<byte>)
    ensures Next(BytesBits(SAMPLE), AtDistance(w)) == Some(AtOffset(w))
  {
    hide BytesBits, BitsOf, At, Num, SymBits, Acceptable, ValidLens, Decode;
    FixedGood();
    SampleSecond();
    ReadDistanceSymbol(BytesBits(SAMPLE), AtDistance(w), 1);
  }

  lemma ToOffset(w: seq<byte>)
    ensures Reach(BytesBits(SAMPLE), Begin(w), AtOffset(w))
  {
    hide BytesBits, Reach, Next;
    var B := BytesBits(SAMPLE);
    ToBoundary(w);
    SecondSteps(w);
    Chain4(B, Begin(w), InStored(w), BeforeByte(w), AfterByte(w), Boundary(w));
    Chain4(B, Boundary(w), InFixed(w), AtLength(w), AtDistance(w), AtOffset(w));
    ReachTrans(B, Begin(w), Boundary(w), AtOffset(w));
  }

  lemma Chain4(B: Bits, a: State, b: State, c: State, d: State, e: State)
    requires Next(B, a) == Some(b) && Next(B, b) == Some(c) && Next(B, c) == Some(d) && Next(B, d) == Some(e)
    ensures Reach(B, a, e)
  {
    hide Next;
    assert Steps(B, e, 0) == Some(e);
    assert Steps(B, d, 1) == Some(e);
    assert Steps(B, c, 2) == Some(e);
    assert Steps(B, b, 3) == Some(e);
    assert Steps(B, a, 4) == Some(e);
  }

  /** With nothing before the output the distance is too far. */
  lemma SampleRejected()
    ensures var bad := AtOffset([]).(mode := Bad);
            Reach(BytesBits(SAMPLE), START, bad) && bad.out == [97]
  {
    hide BytesBits, Reach;
    var B := BytesBits(SAMPLE);
    var bad := AtOffset([]).(mode := Bad);
    NoBitsNum(B, 63);
    assert Begin([]) == START && [] + [97] == [97 as byte];
    ToOffset([]);
    ReachNext(B, AtOffset([]), bad);
    ReachTrans(B, START, AtOffset([]), bad);
  }

  /** With the window before it the stream decodes to its end. */
  lemma SampleDecoded(w: seq<byte>)
    requires w != []
    ensures Reach(BytesBits(SAMPLE), Begin(w), SampleEnd(w))
  {
    hide BytesBits, Reach, Next, At, SymBits, Acceptable, ValidLens, Decode, CopyBytes;
    var B, a := BytesBits(SAMPLE), AtOffset(w);
    ToOffset(w);
    var m := a.(mode := Match(FixedCodes(), 3, 2), toks := [Copy(3, 2)]);
    SampleCopied(w);
    MatchNext(w);
    ReadMatch(B, m);
    var l := m.(mode := Len(FixedCodes()), out := w + SampleOut(w));
    var t := l.(mode := Type, pos := 70);
    EndNext(w, l, t);
    ReachNext(B, a, m);
    ReachNext(B, l, t);
    ReachNext(B, t, SampleEnd(w));
    ReachTrans(B, Begin(w), a, m);
    ReachTrans(B, Begin(w), m, l);
    ReachTrans(B, Begin(w), l, t);
    ReachTrans(B, Begin(w), t, SampleEnd(w));
  }

  lemma MatchNext(w: seq<byte>)
    requires w != []
    ensures Next(BytesBits(SAMPLE), AtOffset(w))
         == Some(AtOffset(w).(mode := Match(FixedCodes(), 3, 2), toks := [Copy(3, 2)]))
  {
    hide BytesBits;
    NoBitsNum(BytesBits(SAMPLE), 63);
    assert [] + [Copy(3, 2)] == [Copy(3, 2)];
  }

  lemma EndNext(w: seq<byte>, l: State, t: State)
    requires w != [] && l == SampleEnd(w).(mode := Len(FixedCodes()), pos := 63) && t == l.(mode := Type, pos := 70)
    ensures Next(BytesBits(SAMPLE), l) == Some(t) && Next(BytesBits(SAMPLE), t) == Some(SampleEnd(w))
  {
    hide BytesBits, At, SymBits, Acceptable, ValidLens, Decode;
    FixedGood();
    SampleSecond();
    ReadSymbol(BytesBits(SAMPLE), 63, LENS, FixedLens(), 256);
  }

  lemma SampleCopied(w: seq<byte>)
    requires w != []
    ensures CopyBytes(w + [97], 3, 2) == w + SampleOut(w)
  {
    hide CopyBytes;
    var b := w[|w| - 1];
    CopyNothing(w + [97], 2);
    CopySnoc(w + [97], 0, 2);
    assert (w + [97])[|w| + 1 - 2] == b && w + [97] + [b] == w + [97, b];
    CopySnoc(w + [97], 1, 2);
    assert w + [97, b] + [97] == w + [97, b, 97];
    CopySnoc(w + [97], 2, 2);
    assert w + [97, b, 97] + [b] == w + SampleOut(w);
  }

  lemma SampleNotNear(w: seq<byte>)
    requires w != []
    ensures !AllNear(BytesBits(SAMPLE), w, SampleEnd(w))
  {
    hide BytesBits, Steps;
    ToOffset(w);
    NoBitsNum(BytesBits(SAMPLE), 63);
    var m: nat :| Steps(BytesBits(SAMPLE), Begin(w), m) == Some(AtOffset(w));
  }

  /** Every state of the second block has at least one byte of output. */
  lemma HasOutput(w: seq<byte>, a: State)
    requires Reach(BytesBits(SAMPLE), Begin(w), a) && (a.mode.Len? || a.mode.DistExt?)
    ensures |a.out| > |w|
  {
    hide BytesBits, Next;
    var n: nat :| Steps(BytesBits(SAMPLE), Begin(w), n) == Some(a);
    FirstSteps(w, a, n);
    OutGrows(BytesBits(SAMPLE), Boundary(w), n - 4);
  }

  /** The only distance is 2. */
  lemma OnlyDistance(w: seq<byte>, a: State)
    requires w != [] && Reach(BytesBits(SAMPLE), Begin(w), a) && a.mode.DistExt?
    ensures a.pos <= 72 && |a.out| <= |w| + 4
    ensures a.pos + a.mode.extra <= 144 && a.mode.base + Num(BytesBits(SAMPLE), a.pos, a.mode.extra) == 2
  {
    hide BytesBits, Num, Reach;
    var B := BytesBits(SAMPLE);
    SampleDecoded(w);
    OnTheRun(B, Begin(w), SampleEnd(w), a);
    var b := Next(B, a).value;
    ReachNext(B, a, b);
    OnTheRun(B, Begin(w), SampleEnd(w), b) by { ReachTrans(B, Begin(w), a, b); }
    ReachOut(B, b, SampleEnd(w));
    assert b.toks[|a.toks|] == [Copy(3, 2)][|a.toks|];
  }

  lemma SamplePasses(w: seq<byte>, a: State)
    requires |w| == WSIZE && Reach(BytesBits(SAMPLE), Begin(w), a)
    ensures Passed(BytesBits(SAMPLE), 8 * |SAMPLE|, w, a)
  {
    hide BytesBits, Num, Reach, Begin;
    if a.mode.DistExt? {
      OnlyDistance(w, a);
      HasOutput(w, a);
      forall b | Reach(BytesBits(SAMPLE), Begin(w), b) && b.mode == Len(a.mode.c)
        ensures |b.out| > |w|
      {
        HasOutput(w, b);
      }
    }
  }

  /**
   The sample, given whole to both decoders: inflate rejects the distance, and inflateBack decodes the stream to its
   end, with the last byte of the old window in the output.
   */
  method DecodersDiffer(window: array<byte>) returns (ret: Ret, back: BackRet, outs: seq<seq<byte>>)
    requires window.Length == WSIZE
    modifies window
    ensures ret.DataError?
    ensures back.BackEnd? && Flat(outs) == SampleOut(old(window[..]))
  {
    hide Inflater.Inv, BackInflater.Inv, Reach, BytesBits, Next, Flat, Passed, Begin;
    var z := new Inflater();
    var buf := new byte[16];
    var used, written;
    used, written, ret := z.Inflate(SAMPLE, buf);
    SampleRejects(z.d.r.given, z.d.abs, buf[..written]);
    var b := new BackInflater(window, SAMPLE, [], 1);
    assert SAMPLE + Rest([]) == SAMPLE;
    ghost var w, offset := b.w0, 0;
    back, offset := b.InflateBack();
    outs := b.outs;
    SampleDecoded(w);
    forall a | Reach(BytesBits(SAMPLE), Begin(w), a)
      ensures Passed(BytesBits(SAMPLE), 8 * |SAMPLE|, w, a)
    {
      SamplePasses(w, a);
    }
    LetPass(SAMPLE, SampleEnd(w), w, b.d.r.given, b.d.abs, outs, 1, back, offset);
    assert (w + SampleOut(w))[|w|..] == (w + Flat(outs))[|w|..];
  }

  lemma SampleRejects(given: seq<byte>, a: State, out: seq<byte>)
    requires given <= SAMPLE && Reach(BytesBits(given), START, a) && a.out == out
    requires !Final(a) ==> (given == SAMPLE && Next(BytesBits(given), a).None?) || |out| == 16
    ensures a.mode.Bad?
  {
    hide BytesBits, Reach, Next;
    var bad := AtOffset([]).(mode := Bad);
    SampleRejected();
    var B := BytesBits(SAMPLE);
    OneRun(SAMPLE, given, a);
    NoBranching(B, START, a, bad);
    if Reach(B, bad, a) {
      FinalIsLast(B, bad, a);
    } else {
      ReachOut(B, a, bad);
      if Final(a) {
        FinalIsLast(B, a, bad);
      } else {
        NothingIsMissed(SAMPLE, a, bad);
      }
    }
  }
}
