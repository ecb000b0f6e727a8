/**
 The three kinds of blocks as the encoder sends them (trees.c), and that the machine of module Format reads them back.
 */
module BlockRoundTrip {
  import opened Shift
  import opened Bits
  import opened Canonical
  import opened InfTreesSpec
  import opened Format
  import opened FormatFacts
  import opened BlockCode
  import opened RunLength

  // ---------- block headers ----------

  /** The 3-bit block header: the last-block flag and the block type. */
  function HeaderBits(kind: nat, last: bool): (b: Bits)
    ensures |b| == 3
  {
    BitsOf(2 * kind + Bit(last), 3)
  }

  lemma ReadHeader(B: Bits, a: State, kind: nat, last: bool)
    requires a.mode.Type? && !a.last && kind < 3 && At(B, a.pos, HeaderBits(kind, last))
    ensures a.pos + 3 <= |B| && B[a.pos] == last && Num(B, a.pos + 1, 2) == kind
  {
    hide At, Num;
    var v := 2 * kind + Bit(last);
    BitsOfAppend(v, 1, 2);
    AtSplit(B, a.pos, BitsOf(v, 1), BitsOf(kind, 2));
    HeaderSplit(kind, last);
    Powers();
    NumOf(B, a.pos + 1, kind, 2);
    FirstBit(B, a.pos, last);
  }

  lemma HeaderSplit(kind: nat, last: bool)
    ensures Shr(2 * kind + Bit(last), 1) == kind && BitsOf(2 * kind + Bit(last), 1) == [last]
  {
    var v := 2 * kind + Bit(last);
    assert Shr(v, 1) == Shr(v / 2, 0) && BitsOf(v / 2, 0) == [];
  }

  lemma FirstBit(B: Bits, pos: nat, b: bool)
    requires At(B, pos, [b])
    ensures pos < |B| && B[pos] == b
  {
    assert B[pos] == B[pos..pos + 1][0];
  }

  /** A state at a block boundary before the last block has begun. */
  ghost predicate Ready(a: State)
  {
    GoodState(a) && a.mode.Type? && !a.last
  }

  // ---------- a block with the fixed codes ----------

  ghost function StaticBits(last: bool, h: seq<byte>, toks: seq<Token>): (b: Bits)
    requires GoodTokens(h, toks)
  {
    FixedHasAll(toks);
    HeaderBits(1, last) + BodyBits(FixedCodes(), h, toks)
  }

  lemma FixedHasAll(toks: seq<Token>)
    ensures AllCodes(FixedCodes(), toks) && HasCode(FixedLens(), 256)
  {
  }

  /** A block with the fixed codes gives back its tokens, and the reader stops right behind it. */
  lemma ReadStatic(B: Bits, a: State, last: bool, toks: seq<Token>)
    requires Ready(a) && GoodTokens(a.out, toks) && At(B, a.pos, StaticBits(last, a.out, toks))
    ensures Reach(B, a, a.(last := last, pos := a.pos + |StaticBits(last, a.out, toks)|,
                           out := Expand(a.out, toks), toks := a.toks + toks))
  {
    hide At, Reach, BodyBits, GoodTokens, Expand, HeaderBits, GoodCodes, Num;
    FixedHasAll(toks);
    FixedGood();
    AtSplit(B, a.pos, HeaderBits(1, last), BodyBits(FixedCodes(), a.out, toks));
    ReadHeader(B, a, 1, last);
    var a1 := a.(last := last, mode := Len(FixedCodes()), pos := a.pos + 3);
    assert Next(B, a) == Some(a1);
    ReachNext(B, a, a1);
    ReadBody(B, a1, toks);
    ReachTrans(B, a, a1, a.(last := last, pos := a.pos + |StaticBits(last, a.out, toks)|,
                            out := Expand(a.out, toks), toks := a.toks + toks));
  }

  // ---------- a block with codes of its own ----------

  /** The lengths of the code length code, in the order of sending. */
  function SentLens(cl: seq<nat>, n: nat): (r: seq<nat>)
    requires |cl| == 19 && n <= 19
    ensures |r| == n
  {
    seq(n, i requires 0 <= i < n => cl[ORDER[i]])
  }

  function SentBits(cl: seq<nat>, from: nat, n: nat): (b: Bits)
    requires |cl| == 19 && from <= n <= 19
    ensures |b| == 3 * (n - from)
    decreases n - from
  {
    if from == n then [] else BitsOf(cl[ORDER[from]], 3) + SentBits(cl, from + 1, n)
  }

  /**
   The code of a dynamic block: the lengths of its codes, the code length code they are sent with, and how many of that
   are sent.
   */
  datatype Trees = Trees(c: Codes, cl: seq<nat>, blcodes: nat)

  ghost predicate GoodTrees(t: Trees)
  {
    && GoodCodes(t.c) && 257 <= |t.c.ll| <= 286 && 1 <= |t.c.dl| <= 30
    && |t.cl| == 19 && (forall i :: 0 <= i < 19 ==> t.cl[i] < 8) && Acceptable(CODES, t.cl)
    && 4 <= t.blcodes <= 19 && (forall k :: t.blcodes <= k < 19 ==> t.cl[ORDER[k]] == 0)
    && HasOps(t.cl, Ops(t.c.ll, 0, 0, -1)) && HasOps(t.cl, Ops(t.c.dl, 0, 0, -1))
  }

  function CountsBits(t: Trees): (b: Bits)
    requires 257 <= |t.c.ll| && 1 <= |t.c.dl| && 4 <= t.blcodes
  {
    BitsOf(|t.c.ll| - 257, 5) + (BitsOf(|t.c.dl| - 1, 5) + BitsOf(t.blcodes - 4, 4))
  }

  ghost function LensBits(t: Trees): (b: Bits)
    requires HasOps(t.cl, Ops(t.c.ll, 0, 0, -1)) && HasOps(t.cl, Ops(t.c.dl, 0, 0, -1))
  {
    OpsBits(t.cl, Ops(t.c.ll, 0, 0, -1)) + OpsBits(t.cl, Ops(t.c.dl, 0, 0, -1))
  }

  ghost function TreesBits(t: Trees): (b: Bits)
    requires GoodTrees(t)
  {
    CountsBits(t) + (SentBits(t.cl, 0, t.blcodes) + LensBits(t))
  }

  ghost function DynamicBits(last: bool, h: seq<byte>, toks: seq<Token>, t: Trees): (b: Bits)
    requires GoodTokens(h, toks) && GoodTrees(t) && AllCodes(t.c, toks) && HasCode(t.c.ll, 256)
  {
    HeaderBits(2, last) + (TreesBits(t) + BodyBits(t.c, h, toks))
  }

  lemma OrderAndRank(i: nat)
    requires i < 19
    ensures RANK[i] < 19 && ORDER[i] < 19 && ORDER[RANK[i]] == i && RANK[ORDER[i]] == i
  {
  }

  lemma SentBack(cl: seq<nat>, n: nat)
    requires |cl| == 19 && n <= 19 && forall k :: n <= k < 19 ==> cl[ORDER[k]] == 0
    ensures CodeLengthCode(SentLens(cl, n)) == cl
  {
    var r := CodeLengthCode(SentLens(cl, n));
    forall i | 0 <= i < 19
      ensures r[i] == cl[i]
    {
      OrderAndRank(i);
    }
  }

  lemma ReadOneSent(B: Bits, a: State, v: nat)
    requires a.mode.LenLens? && |a.mode.sent| < a.mode.ncode && v < 8 && At(B, a.pos, BitsOf(v, 3))
    ensures Next(B, a) == Some(a.(mode := a.mode.(sent := a.mode.sent + [v]), pos := a.pos + 3))
  {
    Powers();
    NumOf(B, a.pos, v, 3);
  }

  lemma SentFits(a: State)
    requires GoodState(a) && a.mode.LenLens?
    ensures a.mode.ncode <= 19
  {
  }

  /** The state when k lengths of the code length code have been read. */
  ghost function WithSent(a: State, cl: seq<nat>, k: nat, pos: nat): State
    requires a.mode.LenLens? && |cl| == 19 && k <= 19
  {
    a.(mode := a.mode.(sent := SentLens(cl, k)), pos := pos)
  }

  lemma ReadOneMore(B: Bits, a: State, cl: seq<nat>, k: nat)
    requires GoodState(a) && a.mode.LenLens? && |cl| == 19 && (forall i :: 0 <= i < 19 ==> cl[i] < 8)
    requires k < a.mode.ncode && a.mode.sent == SentLens(cl, k) && At(B, a.pos, SentBits(cl, k, a.mode.ncode))
    ensures var a1 := WithSent(a, cl, k + 1, a.pos + 3);
            Reach(B, a, a1) && GoodState(a1) && At(B, a1.pos, SentBits(cl, k + 1, a.mode.ncode))
  {
    hide At, Reach, Next, GoodState, BitsOf, Steps;
    SentFits(a);
    var v := cl[ORDER[k]];
    AtSplit(B, a.pos, BitsOf(v, 3), SentBits(cl, k + 1, a.mode.ncode));
    ReadOneSent(B, a, v);
    assert a.mode.sent + [v] == SentLens(cl, k + 1);
    NextGood(B, a, WithSent(a, cl, k + 1, a.pos + 3));
    ReachNext(B, a, WithSent(a, cl, k + 1, a.pos + 3));
  }

  lemma {:induction false} ReadSent(B: Bits, a: State, cl: seq<nat>, k: nat)
    requires GoodState(a) && a.mode.LenLens? && |cl| == 19 && (forall i :: 0 <= i < 19 ==> cl[i] < 8)
    requires k <= a.mode.ncode && a.mode.sent == SentLens(cl, k) && At(B, a.pos, SentBits(cl, k, a.mode.ncode))
    ensures Reach(B, a, WithSent(a, cl, a.mode.ncode, a.pos + 3 * (a.mode.ncode - k)))
    decreases a.mode.ncode - k
  {
    hide At, Reach, Next, GoodState, SentBits, SentLens;
    SentFits(a);
    if k == a.mode.ncode {
      ReachSelf(B, a);
    } else {
      var a1 := WithSent(a, cl, k + 1, a.pos + 3);
      ReadOneMore(B, a, cl, k);
      ReadSent(B, a1, cl, k + 1);
      ReachTrans(B, a, a1, WithSent(a, cl, a.mode.ncode, a.pos + 3 * (a.mode.ncode - k)));
    }
  }

  lemma CountsAre(B: Bits, pos: nat, t: Trees)
    requires 257 <= |t.c.ll| <= 286 && 1 <= |t.c.dl| <= 30 && 4 <= t.blcodes <= 19 && At(B, pos, CountsBits(t))
    ensures pos + 14 <= |B| && Num(B, pos, 5) == |t.c.ll| - 257 && Num(B, pos + 5, 5) == |t.c.dl| - 1
    ensures Num(B, pos + 10, 4) == t.blcodes - 4
  {
    hide At, Num;
    AtSplit(B, pos, BitsOf(|t.c.ll| - 257, 5), BitsOf(|t.c.dl| - 1, 5) + BitsOf(t.blcodes - 4, 4));
    AtSplit(B, pos + 5, BitsOf(|t.c.dl| - 1, 5), BitsOf(t.blcodes - 4, 4));
    Powers();
    NumOf(B, pos, |t.c.ll| - 257, 5);
    NumOf(B, pos + 5, |t.c.dl| - 1, 5);
    NumOf(B, pos + 10, t.blcodes - 4, 4);
  }

  lemma ReadCounts(B: Bits, a: State, t: Trees)
    requires a.mode.Table? && GoodTrees(t) && At(B, a.pos, CountsBits(t))
    ensures Next(B, a) == Some(a.(mode := LenLens(|t.c.ll|, |t.c.dl|, t.blcodes, []), pos := a.pos + 14))
  {
    hide At, Acceptable, HasOps, Ops, Num, CountsBits;
    CountsAre(B, a.pos, t);
  }

  /** The transmitted lengths, from the code length code to the decoding codes. */
  lemma ReadLens(B: Bits, a: State, t: Trees)
    requires GoodTrees(t) && GoodState(a) && a.mode == CodeLens(|t.c.ll|, |t.c.dl|, t.cl, [])
    requires At(B, a.pos, LensBits(t))
    ensures Reach(B, a, a.(mode := Len(t.c), pos := a.pos + |LensBits(t)|))
  {
    hide At, Reach, Acceptable, HasOps, GoodOps, Read, OpsBits, Ops, ValidLens;
    var l, d := Ops(t.c.ll, 0, 0, -1), Ops(t.c.dl, 0, 0, -1);
    SmallLens(t.c.ll);
    SmallLens(t.c.dl);
    ReadAll([], t.c.ll);
    assert [] + t.c.ll == t.c.ll;
    ReadAll(t.c.ll, t.c.dl);
    ReadAppend([], l, d);
    OpsBitsAppend(t.cl, l, d);
    var all := t.c.ll + t.c.dl;
    ReadOpsBits(B, a, l + d);
    var a1 := a.(mode := CodeLens(|t.c.ll|, |t.c.dl|, t.cl, all), pos := a.pos + |LensBits(t)|);
    BuildCodes(B, a1, t);
    ReachTrans(B, a, a1, a1.(mode := Len(t.c)));
  }

  lemma SmallLens(lens: seq<nat>)
    requires ValidLens(lens)
    ensures forall i :: 0 <= i < |lens| ==> lens[i] < 16
  {
  }

  lemma BuildCodes(B: Bits, a: State, t: Trees)
    requires GoodTrees(t) && a.mode == CodeLens(|t.c.ll|, |t.c.dl|, t.cl, t.c.ll + t.c.dl)
    ensures Reach(B, a, a.(mode := Len(t.c)))
  {
    hide Acceptable, HasOps, Ops;
    var all := t.c.ll + t.c.dl;
    assert all[..|t.c.ll|] == t.c.ll && all[|t.c.ll|..] == t.c.dl;
    ReachNext(B, a, a.(mode := Len(t.c)));
  }

  lemma BuildCodeLengthCode(B: Bits, a: State, t: Trees)
    requires GoodTrees(t) && a.mode == LenLens(|t.c.ll|, |t.c.dl|, t.blcodes, SentLens(t.cl, t.blcodes))
    ensures Reach(B, a, a.(mode := CodeLens(|t.c.ll|, |t.c.dl|, t.cl, [])))
  {
    hide Acceptable, HasOps, Ops, GoodCodes;
    SentBack(t.cl, t.blcodes);
    ReachNext(B, a, a.(mode := CodeLens(|t.c.ll|, |t.c.dl|, t.cl, [])));
  }

  /** The whole header of a dynamic block gives the decoder the codes of the encoder. */
  lemma ReadTrees(B: Bits, a: State, t: Trees)
    requires GoodState(a) && a.mode.Table? && GoodTrees(t) && At(B, a.pos, TreesBits(t))
    ensures Reach(B, a, a.(mode := Len(t.c), pos := a.pos + |TreesBits(t)|))
  {
    hide At, Reach, Acceptable, HasOps, Ops, GoodCodes, LensBits, CountsBits, SentBits, SentLens;
    AtSplit(B, a.pos, CountsBits(t), SentBits(t.cl, 0, t.blcodes) + LensBits(t));
    ReadCounts(B, a, t);
    CountsLength(t);
    var a1 := a.(mode := LenLens(|t.c.ll|, |t.c.dl|, t.blcodes, []), pos := a.pos + 14);
    ReachNext(B, a, a1);
    NextGood(B, a, a1);
    AtSplit(B, a1.pos, SentBits(t.cl, 0, t.blcodes), LensBits(t));
    assert SentLens(t.cl, 0) == [];
    ReadSent(B, a1, t.cl, 0);
    var a2 := a1.(mode := LenLens(|t.c.ll|, |t.c.dl|, t.blcodes, SentLens(t.cl, t.blcodes)),
        pos := a1.pos + 3 * t.blcodes);
    BuildCodeLengthCode(B, a2, t);
    var a3 := a2.(mode := CodeLens(|t.c.ll|, |t.c.dl|, t.cl, []));
    ReachTrans(B, a1, a2, a3);
    ReachGood(B, a1, a3);
    ReadLens(B, a3, t);
    var a4 := a3.(mode := Len(t.c), pos := a3.pos + |LensBits(t)|);
    ReachTrans(B, a1, a3, a4);
    ReachTrans(B, a, a1, a4);
  }

  lemma CountsLength(t: Trees)
    requires GoodTrees(t)
    ensures |CountsBits(t)| == 14
  {
  }

  /** A block with codes of its own gives back its tokens, and the reader stops right behind it. */
  lemma ReadDynamic(B: Bits, a: State, last: bool, toks: seq<Token>, t: Trees)
    requires Ready(a) && GoodTokens(a.out, toks) && GoodTrees(t) && AllCodes(t.c, toks) && HasCode(t.c.ll, 256)
    requires At(B, a.pos, DynamicBits(last, a.out, toks, t))
    ensures Reach(B, a, a.(last := last, pos := a.pos + |DynamicBits(last, a.out, toks, t)|,
                           out := Expand(a.out, toks), toks := a.toks + toks))
  {
    hide At, Reach, BodyBits, GoodTokens, Expand, HeaderBits, GoodCodes, Num, TreesBits, AllCodes, HasOps, Acceptable,
         Ops;
    AtSplit(B, a.pos, HeaderBits(2, last), TreesBits(t) + BodyBits(t.c, a.out, toks));
    AtSplit(B, a.pos + 3, TreesBits(t), BodyBits(t.c, a.out, toks));
    ReadHeader(B, a, 2, last);
    var a1 := a.(last := last, mode := Mode.Table, pos := a.pos + 3);
    assert Next(B, a) == Some(a1);
    ReachNext(B, a, a1);
    ReadTrees(B, a1, t);
    var a2 := a1.(mode := Len(t.c), pos := a1.pos + |TreesBits(t)|);
    ReachTrans(B, a, a1, a2);
    ReadBody(B, a2, toks);
    ReachTrans(B, a, a2, a.(last := last, pos := a.pos + |DynamicBits(last, a.out, toks, t)|,
                            out := Expand(a.out, toks), toks := a.toks + toks));
  }

  // ---------- a stored block ----------

  function BytesBits(s: seq<byte>): (b: Bits)
    ensures |b| == 8 * |s|
  {
    if s == [] then [] else BytesBits(s[..|s| - 1]) + BitsOf(s[|s| - 1], 8)
  }

  lemma BytesBitsSnoc(s: seq<byte>, b: byte)
    ensures BytesBits(s + [b]) == BytesBits(s) + BitsOf(b, 8)
  {
    hide BitsOf;
    assert (s + [b])[..|s|] == s;
  }

  lemma {:induction false} BytesBitsAppend(s: seq<byte>, t: seq<byte>)
    ensures BytesBits(s + t) == BytesBits(s) + BytesBits(t)
  {
    hide BytesBits, BitsOf;
    if t == [] {
      assert s + t == s;
      NoBytesBits();
    } else {
      var u, b := t[..|t| - 1], t[|t| - 1];
      assert u + [b] == t && s + u + [b] == s + t;
      BytesBitsAppend(s, u);
      BytesBitsSnoc(u, b);
      BytesBitsSnoc(s + u, b);
      assert BytesBits(s) + (BytesBits(u) + BitsOf(b, 8)) == BytesBits(s) + BytesBits(u) + BitsOf(b, 8);
    }
  }

  lemma NoBytesBits()
    ensures BytesBits([]) == []
  {
  }

  /** Zero bits up to the next byte boundary. */
  function Padding(pos: nat): (b: Bits)
    ensures |b| == Align(pos) - pos
  {
    seq(Align(pos) - pos, _ => false)
  }

  function StoredBits(pos: nat, last: bool, data: seq<byte>): (b: Bits)
    requires |data| < 0x10000
  {
    HeaderBits(0, last) + (Padding(pos + 3) + ((BitsOf(|data|, 16) + BitsOf(0xffff - |data|, 16)) + BytesBits(data)))
  }

  lemma ReadOneByte(B: Bits, a: State, b: byte)
    requires a.mode.Copying? && a.mode.left > 0 && At(B, a.pos, BitsOf(b, 8))
    ensures Next(B, a) == Some(a.(mode := Copying(a.mode.left - 1), pos := a.pos + 8, out := a.out + [b]))
  {
    ReadByte(B, a.pos, b);
  }

  lemma ReadNoByte(B: Bits, a: State)
    requires a.mode == Copying(0)
    ensures Next(B, a) == Some(a.(mode := Type))
  {
  }

  lemma {:induction false} ReadBytes(B: Bits, a: State, data: seq<byte>)
    requires a.mode == Copying(|data|) && At(B, a.pos, BytesBits(data))
    ensures Reach(B, a, a.(mode := Type, pos := a.pos + 8 * |data|, out := a.out + data))
    decreases |data|
  {
    hide At, Reach, Next, BitsOf, Steps;
    if data == [] {
      assert a.out + data == a.out;
      ReadNoByte(B, a);
      ReachNext(B, a, a.(mode := Type));
    } else {
      assert data == [data[0]] + data[1..];
      BytesBitsAppend([data[0]], data[1..]);
      OneByte(data[0]);
      AtSplit(B, a.pos, BytesBits([data[0]]), BytesBits(data[1..]));
      var a1 := a.(mode := Copying(|data| - 1), pos := a.pos + 8, out := a.out + [data[0]]);
      ReadOneByte(B, a, data[0]);
      ReachNext(B, a, a1);
      ReadBytes(B, a1, data[1..]);
      assert a1.out + data[1..] == a.out + data;
      ReachTrans(B, a, a1, a.(mode := Type, pos := a.pos + 8 * |data|, out := a.out + data));
    }
  }

  lemma OneByte(b: byte)
    ensures BytesBits([b]) == BitsOf(b, 8)
  {
    assert [b][..0] == [];
  }

  lemma ReadByte(B: Bits, pos: nat, b: byte)
    requires At(B, pos, BitsOf(b, 8))
    ensures pos + 8 <= |B| && ByteAt(B, pos) == b
  {
    Powers();
    NumOf(B, pos, b, 8);
  }

  /** A stored block gives back its bytes, wherever in a byte it starts. */
  lemma ReadStored(B: Bits, a: State, last: bool, data: seq<byte>)
    requires Ready(a) && |data| < 0x10000 && At(B, a.pos, StoredBits(a.pos, last, data))
    ensures Reach(B, a, a.(last := last, pos := a.pos + |StoredBits(a.pos, last, data)|, out := a.out + data))
  {
    hide At, Reach, HeaderBits, Num, BytesBits, Align, BitsOf;
    var counts := BitsOf(|data|, 16) + BitsOf(0xffff - |data|, 16);
    AtSplit(B, a.pos, HeaderBits(0, last), Padding(a.pos + 3) + (counts + BytesBits(data)));
    AtSplit(B, a.pos + 3, Padding(a.pos + 3), counts + BytesBits(data));
    ReadHeader(B, a, 0, last);
    var a1 := a.(last := last, mode := Stored, pos := Align(a.pos + 3));
    assert Next(B, a) == Some(a1);
    ReachNext(B, a, a1);
    AtSplit(B, a1.pos, counts, BytesBits(data));
    AtSplit(B, a1.pos, BitsOf(|data|, 16), BitsOf(0xffff - |data|, 16));
    Powers();
    NumOf(B, a1.pos, |data|, 16);
    NumOf(B, a1.pos + 16, 0xffff - |data|, 16);
    var a2 := a1.(mode := Copying(|data|), pos := a1.pos + 32);
    assert Next(B, a1) == Some(a2);
    ReachNext(B, a1, a2);
    ReachTrans(B, a, a1, a2);
    ReadBytes(B, a2, data);
    ReachTrans(B, a, a2, a.(last := last, pos := a.pos + |StoredBits(a.pos, last, data)|, out := a.out + data));
  }
}
