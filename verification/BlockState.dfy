/**
 The part of deflate_state that trees.c works on: _tr_tally, _tr_flush_block, _tr_stored_block and
 _tr_align. A ghost reader follows the stream: whatever has been sent decodes to the bytes of the
 blocks flushed so far.
 */
module BlockStates {
  import opened Shift
  import opened Bits
  import opened Canonical
  import opened InfTreesSpec
  import opened Format
  import opened FormatFacts
  import opened BlockCode
  import opened RunLength
  import opened BlockRoundTrip
  import opened BlockLength
  import opened Heap
  import opened HuffmanQueue
  import opened TreeDepth
  import opened BitLengths
  import opened DynTree
  import opened StaticTables
  import opened BitWriting
  import opened TreeSending
  import opened BlockWriting
  import opened DynamicTrees

  // ---------- the reader that follows the stream ----------

  /** The reader r has read all of sent and stands between two blocks, or behind the last one. */
  ghost predicate Tracks(sent: Bits, r: State)
  {
    Reach(sent, START, r) && GoodState(r) && r.pos == |sent| && (r.mode.Type? || (r.mode.Done? && r.last))
  }

  lemma TracksNothing()
    ensures Tracks([], START)
  {
    ReachSelf([], START);
  }

  lemma AtEnd(sent: Bits, b: Bits)
    ensures At(sent + b, |sent|, b)
  {
  }

  lemma Advance(sent: Bits, b: Bits, r: State, r1: State)
    requires Tracks(sent, r) && Reach(sent + b, r, r1) && r1.pos == |sent| + |b|
    requires r1.mode.Type? || (r1.mode.Done? && r1.last)
    ensures Tracks(sent + b, r1)
  {
    hide Reach, GoodState;
    assert GoodState(START) by { StartGood(); }
    ReachLonger(sent, b, START, r);
    ReachTrans(sent + b, START, r, r1);
    ReachGood(sent + b, START, r1);
  }

  lemma StartGood()
    ensures GoodState(START)
  {
  }

  lemma AdvanceStatic(sent: Bits, r: State, last: bool, toks: seq<Token>)
    requires Tracks(sent, r) && r.mode.Type? && !r.last && GoodTokens(r.out, toks)
    ensures Tracks(sent + StaticBits(last, r.out, toks),
                   State(Type, last, |sent + StaticBits(last, r.out, toks)|, Expand(r.out, toks), r.toks + toks))
  {
    hide Reach, At, GoodTokens, StaticBits, Expand;
    var b := StaticBits(last, r.out, toks);
    AtEnd(sent, b);
    ReadStatic(sent + b, r, last, toks);
    Advance(sent, b, r, State(Type, last, |sent + b|, Expand(r.out, toks), r.toks + toks));
  }

  lemma AdvanceDynamic(sent: Bits, r: State, last: bool, toks: seq<Token>, t: Trees)
    requires Tracks(sent, r) && r.mode.Type? && !r.last && GoodTokens(r.out, toks)
    requires GoodTrees(t) && AllCodes(t.c, toks) && HasCode(t.c.ll, 256)
    ensures Tracks(sent + DynamicBits(last, r.out, toks, t),
                   State(Type, last, |sent + DynamicBits(last, r.out, toks, t)|, Expand(r.out, toks), r.toks + toks))
  {
    hide Reach, At, GoodTokens, DynamicBits, Expand, GoodTrees, AllCodes;
    var b := DynamicBits(last, r.out, toks, t);
    AtEnd(sent, b);
    ReadDynamic(sent + b, r, last, toks, t);
    Advance(sent, b, r, State(Type, last, |sent + b|, Expand(r.out, toks), r.toks + toks));
  }

  lemma AdvanceStored(sent: Bits, r: State, last: bool, data: seq<byte>)
    requires Tracks(sent, r) && r.mode.Type? && !r.last && |data| < 0x10000
    ensures Tracks(sent + StoredBits(|sent|, last, data), State(Type, last, |sent + StoredBits(|sent|, last, data)|,
             r.out + data, r.toks))
  {
    hide Reach, At, StoredBits;
    var b := StoredBits(|sent|, last, data);
    AtEnd(sent, b);
    ReadStored(sent + b, r, last, data);
    Advance(sent, b, r, State(Type, last, |sent + b|, r.out + data, r.toks));
  }

  /** After the last block, the padding of the last byte ends the stream. */
  lemma AdvanceEnd(sent: Bits, r: State)
    requires Tracks(sent, r) && r.mode.Type? && r.last
    ensures Tracks(sent + Padding(|sent|), r.(mode := Done, pos := |sent + Padding(|sent|)|))
  {
    hide Reach, Align;
    var b := Padding(|sent|);
    var r1 := r.(mode := Done, pos := |sent + b|);
    assert Next(sent + b, r) == Some(r1);
    ReachNext(sent + b, r, r1);
    Advance(sent, b, r, r1);
  }

  // ---------- the trees of a block ----------

  function LDesc(): Desc
  {
    Desc(286, MAX_BITS, EXTRA_LBITS, 257, FixedLens())
  }

  function DDesc(): Desc
  {
    Desc(30, MAX_BITS, EXTRA_DBITS, 0, FiveBits())
  }

  lemma MaxLengths()
    ensures LDesc().maxLength == DDesc().maxLength == MAX_BITS && LDesc().elems == 286 && DDesc().elems == 30
  {
  }

  function LitXBits(): (xb: seq<nat>)
    ensures |xb| == 286 && forall i :: 0 <= i < 286 ==> xb[i] == LitExtra()[i]
  {
    LitExtra()[..286]
  }

  function DistXBits(): (xb: seq<nat>)
    ensures |xb| == 30 && forall i :: 0 <= i < 30 ==> xb[i] == DistExtras()[i]
  {
    DistExtras()[..30]
  }

  lemma DescsValid()
    ensures ValidDesc(LDesc(), LitXBits()) && ValidDesc(DDesc(), DistXBits())
    ensures LDesc().elems == 286 && DDesc().elems == 30
  {
    hide LengthExtra, DistExtra;
    ExtraBitsAgree();
    Pow2Monotone(9, 15);
    assert Pow2(9) == 512;
    assert DistExtra(0) == 0 && DistExtra(1) == 0 && DistExtra(2) == 0 by { FirstDistances(); }
  }

  lemma FirstDistances()
    ensures DistExtra(0) == 0 && DistExtra(1) == 0 && DistExtra(2) == 0
  {
  }

  lemma {:induction false} SumsAgree(f: seq<nat>, lens: seq<nat>, xb: seq<nat>, xb1: seq<nat>, slens: seq<nat>,
                                     slens1: seq<nat>, n: nat)
    requires n <= |f| && n <= |lens| && n <= |xb| && n <= |xb1| && n <= |slens| && n <= |slens1|
    requires forall i :: 0 <= i < n ==> xb[i] == xb1[i] && slens[i] == slens1[i]
    ensures BitsTotal(f, lens, xb, n) == BitsTotal(f, lens, xb1, n)
    ensures StaticTotal(f, lens, slens, xb, n) == StaticTotal(f, lens, slens1, xb1, n)
  {
    if n > 0 {
      SumsAgree(f, lens, xb, xb1, slens, slens1, n - 1);
    }
  }

  lemma FreqTotals(toks: seq<Token>)
    requires |toks| < 0x8000
    ensures Total(LitFreqs(toks), 286) < 0x10000 - 3 && Total(DistFreqs(toks), 30) < 0x10000 - 3
  {
    hide LitSym, DistSym, Total;
    BelowAll(toks);
    TotalOccs(BlockSyms(toks), 286);
    TotalOccs(DistSyms(toks), 30);
  }

  /** So few tokens that no code can get longer than MAX_BITS. */
  const FEW := 2583

  lemma FibBound()
    ensures Fib(MAX_BITS + 3) == FEW + 1
  {
    assert Fib(5) == 5 && Fib(6) == 8 && Fib(7) == 13 && Fib(8) == 21;
    assert Fib(9) == 34 && Fib(10) == 55 && Fib(11) == 89 && Fib(12) == 144;
    assert Fib(13) == 233 && Fib(14) == 377 && Fib(15) == 610 && Fib(16) == 987;
    assert Fib(17) == 1597 && Fib(18) == 2584;
  }

  lemma FewTokens(toks: seq<Token>)
    requires |toks| < FEW
    ensures Total(LitFreqs(toks), 286) < Fib(MAX_BITS + 3) && Total(DistFreqs(toks), 30) < Fib(MAX_BITS + 3)
  {
    hide LitSym, DistSym, Total, Fib;
    FibBound();
    BelowAll(toks);
    TotalOccs(BlockSyms(toks), 286);
    TotalOccs(DistSyms(toks), 30);
  }

  /** The end of the block is one symbol, and a token brings another. */
  lemma TwoSymbols(toks: seq<Token>)
    requires toks != []
    ensures |Occurs(LitFreqs(toks))| >= 2
  {
    var syms := BlockSyms(toks);
    var s := syms[0];
    CountPositive(syms, 0);
    CountPositive(syms, |toks|);
    var two: set<nat> := {s, 256};
    assert |two| == 2;
    CardAtLeast(Occurs(LitFreqs(toks)), two);
  }

  /** What build_tree says about both trees, for the encoder. */
  lemma BuiltCodes(toks: seq<Token>, lt: seq<CtData>, dt: seq<CtData>, lMax: nat, dMax: nat, c: Codes)
    requires Built(LitFreqs(toks), lt, LDesc(), lMax, c.ll) && Built(DistFreqs(toks), dt, DDesc(), dMax, c.dl)
    ensures BlockCodes(c) && Covers(LitFreqs(toks), c.ll) && Covers(DistFreqs(toks), c.dl) && Sized(c)
    ensures |c.ll| == lMax + 1 && |c.dl| == dMax + 1 && Coded(lt, c.ll) && Coded(dt, c.dl)
    ensures lMax + 1 <= |lt| && c.ll == Lens(lt, lMax + 1) && dMax + 1 <= |dt| && c.dl == Lens(dt, dMax + 1)
  {
    hide Used, Count, LitSyms, DistSyms, Reversed;
    EndOccurs(toks);
    assert c.ll == Lens(lt, lMax + 1);
    assert c.dl == Lens(dt, dMax + 1);
  }

  lemma EndOccurs(toks: seq<Token>)
    ensures LitFreqs(toks)[256] > 0
  {
    CountPositive(BlockSyms(toks), |toks|);
  }

  /** The counters are the lengths of the two possible encodings of the body. */
  lemma BodySums(toks: seq<Token>, h: seq<byte>, c: Codes, at1: Sums, at2: Sums)
    requires GoodTokens(h, toks) && Sized(c) && Covers(LitFreqs(toks), c.ll) && Covers(DistFreqs(toks), c.dl)
    requires Counted(Sums(0, 0), at1, LitFreqs(toks), c.ll, LDesc(), LitXBits())
    requires Counted(at1, at2, DistFreqs(toks), c.dl, DDesc(), DistXBits())
    ensures AllCodes(c, toks) && HasCode(c.ll, 256)
    ensures at2.opt == |BodyBits(c, h, toks)|
    ensures AllCodes(FixedCodes(), toks) && HasCode(FixedLens(), 256) && at2.stat == |BodyBits(FixedCodes(), h, toks)|
  {
    hide GoodTokens, BodyBits, LitFreqs, DistFreqs, BitsTotal, StaticTotal, FixedLens, AllCodes, Covers;
    CoversFits(LitFreqs(toks), c.ll);
    CoversFits(DistFreqs(toks), c.dl);
    BodyLength(c, h, toks);
    StaticBodyLength(c, h, toks);
    SumsAgree(LitFreqs(toks), c.ll, LitXBits(), LitExtra(), FixedLens(), FixedLens(), |c.ll|);
    SumsAgree(DistFreqs(toks), c.dl, DistXBits(), DistExtras(), FiveBits(), FixedDists(), |c.dl|);
  }

  lemma CoversFits(f: seq<nat>, lens: seq<nat>)
    requires Covers(f, lens)
    ensures |lens| <= |f|
  {
  }

  lemma GuardKeeps(t: seq<CtData>, lens: seq<nat>, e: CtData)
    requires Coded(t, lens) && |lens| < |t|
    ensures Coded(t[|lens| := e], lens)
  {
  }

  /** Everything send_all_trees and compress_block need for the block of the tokens toks. */
  ghost predicate BuiltBlock(lt: seq<CtData>, dt: seq<CtData>, bt: seq<CtData>, lMax: nat, dMax: nat, maxBlindex: nat,
                             t: Trees, toks: seq<Token>)
  {
    && Usable(lt, t.c.ll, 286) && Usable(dt, t.c.dl, 30) && Guarded(lt, t.c.ll) && Guarded(dt, t.c.dl)
    && Coded(bt, t.cl) && GoodTrees(t) && t.blcodes == maxBlindex + 1 && |t.c.ll| == lMax + 1 && |t.c.dl| == dMax + 1
    && AllCodes(t.c, toks) && HasCode(t.c.ll, 256) && ValidLens(t.c.ll) && ValidLens(t.c.dl)
  }

  /** The frequencies that the tally has counted. */
  ghost predicate Counts(lt: seq<CtData>, dt: seq<CtData>, bt: seq<CtData>, toks: seq<Token>)
  {
    Tallied(lt, BlockSyms(toks), 286) && Tallied(dt, DistSyms(toks), 30) && Tallied(bt, [], 19)
  }

  /** How many bytes n bits take. */
  function BytesOf(n: nat): nat
  {
    (n + 7) / 8
  }

  /**
   The encoding chosen: 0 stored, 1 with the fixed codes, 2 with codes of its own. Unless the fixed
   codes are forced it is one of the fewest bytes, a stored block only being chosen if its data
   and 4 bytes are no more than the best of the others.
   */
  ghost predicate Cheapest3(kind: nat, fixed: bool, hasBuf: bool, stored: nat, stat: nat, dynamic: nat)
  {
    && (kind == 0 ==> hasBuf && stored + 4 <= BytesOf(stat) && stored + 4 <= BytesOf(dynamic))
    && (kind == 1 && !fixed ==> BytesOf(stat) <= BytesOf(dynamic) && (hasBuf ==> BytesOf(stat) < stored + 4))
    && (kind == 2 ==> BytesOf(dynamic) < BytesOf(stat) && (hasBuf ==> BytesOf(dynamic) < stored + 4))
  }

  class BlockState {
    const tables: Tables
    const w: BitWriter
    const level: nat
    const fixed: bool        // strategy Z_FIXED
    const litBufsize: nat
    /** The tokens of the current block. */
    const dBuf: array<nat>
    const lBuf: array<byte>
    var lastLit: nat
    const ltree: array<CtData>
    const dtree: array<CtData>
    const blTree: array<CtData>
    const heap: array<nat>
    const depth: array<nat>
    const blCount: array<nat>
    /** opt_len and static_len. */
    var sums: Sums
    var lastEobLen: nat
    ghost var reader: State

    ghost function Repr(): set<object>
    {
      {this, w, dBuf, lBuf, ltree, dtree, blTree, heap, depth, blCount}
    }

    ghost predicate Shape()
    {
      && GoodTables(tables) && 2 <= litBufsize <= 0x8000
      && dBuf.Length == litBufsize && lBuf.Length == litBufsize
      && ltree.Length == 573 && dtree.Length == 61
      && Room(ltree, heap, depth, blCount, LDesc()) && Room(dtree, heap, depth, blCount, DDesc())
      && BlRoom(ltree, dtree, blTree, heap, depth, blCount)
      && dBuf != heap && dBuf != depth && dBuf != blCount
    }

    ghost function Toks(): (r: seq<Token>)
      requires lastLit <= dBuf.Length && lastLit <= lBuf.Length
      reads this, dBuf, lBuf
      ensures |r| == lastLit
    {
      Buffered(dBuf[..], lBuf[..], lastLit)
    }

    ghost predicate Valid()
      reads Repr()
    {
      && Shape() && lastLit < litBufsize && w.Valid() && sums == Sums(0, 0)
      && Counts(ltree[..], dtree[..], blTree[..], Toks())
      && GoodTokens(reader.out, Toks())
      && Tracks(w.Sent(), reader)
    }

    /** _tr_init: the state for a new stream. */
    constructor (level: nat, fixed: bool, litBufsize: nat)
      requires 2 <= litBufsize <= 0x8000
      ensures Valid() && fresh(Repr()) && reader == START && lastLit == 0 && w.output == []
      ensures this.level == level && this.fixed == fixed && this.litBufsize == litBufsize
    {
      hide GoodTables, Tracks, Counts, ValidDesc, GoodTokens, BlockState.Shape, BlockState.Valid, BitWriter.Valid,
           Buffered;
      var t := TrStaticInit();
      var writer := new BitWriter();
      this.tables, this.w, this.level, this.fixed, this.litBufsize := t, writer, level, fixed, litBufsize;
      dBuf := new nat[litBufsize](_ => 0);
      lBuf := new byte[litBufsize](_ => 0);
      lastLit := 0;
      ltree := new CtData[573](_ => CtData(0, 0));
      dtree := new CtData[61](_ => CtData(0, 0));
      blTree := new CtData[39](_ => CtData(0, 0));
      heap := new nat[HEAP_SIZE](_ => 0);
      depth := new nat[HEAP_SIZE](_ => 0);
      blCount := new nat[MAX_BITS + 1](_ => 0);
      sums, lastEobLen, reader := Sums(0, 0), 8, START;
      new;
      Shapes();
      Start();
    }

    /** The first block. */
    method Start()
      requires Shape() && litBufsize >= 2 && w.Valid() && w.Sent() == [] && reader == START
      modifies this`lastLit, this`sums, ltree, dtree, blTree
      ensures Valid() && lastLit == 0
    {
      hide GoodTables, Tracks, Counts, GoodTokens, Room, BlRoom;
      InitBlock();
      TracksNothing();
      Begun();
    }

    lemma Begun()
      requires Shape() && lastLit == 0 && w.Valid() && w.Sent() == [] && sums == Sums(0, 0) && reader == START
      requires Toks() == []
      requires Counts(ltree[..], dtree[..], blTree[..], []) && Tracks([], START)
      ensures Valid()
    {
      hide GoodTables, Tracks, Counts, Room, BlRoom;
      NoTokens(START.out);
    }

    lemma Shapes()
      requires GoodTables(tables) && 2 <= litBufsize <= 0x8000 && dBuf.Length == litBufsize && lBuf.Length == litBufsize
      requires ltree.Length == 573 && dtree.Length == 61 && blTree.Length == 39
      requires heap.Length == HEAP_SIZE && depth.Length == HEAP_SIZE && blCount.Length == MAX_BITS + 1
      requires ltree != dtree && ltree != blTree && dtree != blTree && heap != depth && heap != blCount
      requires depth != blCount
      requires dBuf != heap && dBuf != depth && dBuf != blCount
      ensures Shape()
    {
      hide GoodTables;
    }

    /** init_block: no tokens, and only the end-of-block code counted. */
    method InitBlock()
      requires Shape()
      modifies this`lastLit, this`sums, ltree, dtree, blTree
      ensures lastLit == 0 && sums == Sums(0, 0) && Toks() == []
      ensures Counts(ltree[..], dtree[..], blTree[..], [])
    {
      hide GoodTables, Room, BlRoom;
      assert ltree != dtree && ltree != blTree && dtree != blTree
          && blTree.Length == 39 by { BlRoomIs(ltree, dtree, blTree, heap, depth, blCount); }
      ClearFreqs(ltree, 286);
      ClearFreqs(dtree, 30);
      ClearFreqs(blTree, 19);
      ltree[256] := ltree[256].(fc := 1);
      sums := Sums(0, 0);
      lastLit := 0;
      NothingCounted(ltree[..], dtree[..], blTree[..]);
    }

    /** Saves one more pair of buffer entries. */
    method Save(dist: nat, lc: byte)
      requires lastLit < dBuf.Length && lastLit < lBuf.Length
      modifies this`lastLit, dBuf, lBuf
      ensures lastLit == old(lastLit) + 1 && lastLit <= dBuf.Length && lastLit <= lBuf.Length
      ensures Toks() == old(Toks()) + [TokenAt(dist, lc)]
    {
      ghost var toks := Toks();
      dBuf[lastLit] := dist;
      lBuf[lastLit] := lc;
      lastLit := lastLit + 1;
      assert Toks() == toks + [TokenAt(dist, lc)];
    }

    /** _tr_tally: saves a match or a literal and counts its symbols; true when the block must be flushed. */
    method Tally(dist: nat, lc: byte) returns (flush: bool)
      requires Valid() && lastLit + 1 < litBufsize && dist <= 32768
      requires GoodToken(Expand(reader.out, Toks()), TokenAt(dist, lc))
      modifies this`lastLit, dBuf, lBuf, ltree, dtree
      ensures Valid() && lastLit == old(lastLit) + 1 && Toks() == old(Toks()) + [TokenAt(dist, lc)]
      ensures flush <==> lastLit == litBufsize - 1
    {
      hide GoodTables, Counts, Tracks, GoodTokens, Expand, GoodToken, Room, BlRoom, TokenAt;
      ghost var toks, t := Toks(), TokenAt(dist, lc);
      assert ltree != dtree && ltree != blTree && dtree != blTree by { BlRoomIs(ltree, dtree, blTree, heap, depth,
          blCount); }
      ghost var bt := blTree[..];
      ExpandOneMore(reader.out, toks, t);
      Save(dist, lc);
      CountSymbols(ltree, dtree, tables, dist, lc, bt, toks);
      assert blTree[..] == bt;
      flush := lastLit == litBufsize - 1;
    }

    /** Builds the literal and the distance tree; the counters become the sizes of the two encodings of the body. */
    method BodyTrees() returns (lMax: nat, dMax: nat, ghost c: Codes)
      requires Valid()
      modifies ltree, dtree, heap, depth, blCount, this`sums
      ensures lastLit == old(lastLit) && lastLit <= dBuf.Length && lastLit <= lBuf.Length && Toks() == old(Toks())
      ensures GoodTokens(reader.out, Toks())
      ensures 0 < |Toks()| < FEW ==> Cheapest(LitFreqs(Toks()), c.ll)
      ensures |Toks()| < FEW && |Occurs(DistFreqs(Toks()))| >= 2 ==> Cheapest(DistFreqs(Toks()), c.dl)
      ensures BlockCodes(c) && Coded(ltree[..], c.ll) && Coded(dtree[..], c.dl) && lMax <= 285 && dMax <= 29
      ensures |c.ll| == lMax + 1 <= ltree.Length && |c.dl| == dMax + 1 <= dtree.Length
      ensures c.ll == Lens(ltree[..], lMax + 1) && c.dl == Lens(dtree[..], dMax + 1)
      ensures AllCodes(c, Toks()) && HasCode(c.ll, 256)
      ensures sums == Sums(|BodyBits(c, reader.out, Toks())|, |StaticBits(false, reader.out, Toks())| - 3)
    {
      hide GoodTables, Tracks, GoodTokens, Expand, Room, BlRoom, Tallied, Total, Built, Counted, FairCodes, Cheapest,
           ValidDesc, LDesc, DDesc, LitFreqs, DistFreqs, Coded, Guarded, Covers, BlockCodes, BodyBits, Buffered,
           AllCodes, Occurs, Deep, Fib, TreeOf, Lens;
      ghost var toks := Toks();
      DescsValid();
      MaxLengths();
      if |toks| < FEW {
        FewTokens(toks);
        if toks != [] {
          TwoSymbols(toks);
        }
      }
      FreqTotals(toks);
      CountedFreqs(ltree[..], dtree[..], toks);
      ghost var ll, dl, tree;
      lMax, sums, ll, tree := BuildTree(ltree, heap, depth, blCount, LDesc(), sums, LitXBits());
      ghost var sums1 := sums;
      dMax, sums, dl, tree := BuildTree(dtree, heap, depth, blCount, DDesc(), sums, DistXBits());
      c := Codes(ll, dl);
      BuiltCodes(toks, ltree[..], dtree[..], lMax, dMax, c);
      BodySums(toks, reader.out, c, sums1, sums);
      StaticSize(reader.out, toks);
      RoomForGuard(c, lMax, dMax);
    }

    /** Builds all three trees; the counters become the sizes of the two encodings. */
    method BuildTrees() returns (lMax: nat, dMax: nat, maxBlindex: nat, ghost t: Trees)
      requires Valid()
      modifies ltree, dtree, blTree, heap, depth, blCount, this`sums
      ensures lastLit == old(lastLit) && lastLit <= dBuf.Length && lastLit <= lBuf.Length && Toks() == old(Toks())
      ensures GoodTokens(reader.out, Toks())
      ensures 0 < |Toks()| < FEW ==> Cheapest(LitFreqs(Toks()), t.c.ll)
      ensures |Toks()| < FEW && |Occurs(DistFreqs(Toks()))| >= 2 ==> Cheapest(DistFreqs(Toks()), t.c.dl)
      ensures BuiltBlock(ltree[..], dtree[..], blTree[..], lMax, dMax, maxBlindex, t, Toks())
      ensures sums == Sums(|TreesBits(t)| + |BodyBits(t.c, reader.out, Toks())|,
               |StaticBits(false, reader.out, Toks())| - 3)
    {
      hide GoodTables, Tracks, GoodTokens, Expand, Room, BlRoom, Tallied, Total, Cheapest, LitFreqs, DistFreqs, Coded,
           Guarded, BlockCodes, TreesBits, BodyBits, StaticBits, Buffered, BuiltBlock, GoodTrees, AllCodes, Occurs,
           Lens;
      ghost var c;
      lMax, dMax, c := BodyTrees();
      ghost var lt, dt := ltree[..], dtree[..];
      BlRoomIs(ltree, dtree, blTree, heap, depth, blCount);
      maxBlindex, sums, t := BuildBlTree(ltree, lMax, dtree, dMax, blTree, heap, depth, blCount, sums, c);
      BlockIsBuilt(lt, dt, ltree[..], dtree[..], blTree[..], lMax, dMax, maxBlindex, t, Toks());
    }

    /** A block with the fixed codes. */
    method SendStatic(eof: bool)
      requires Shape() && lastLit < litBufsize && w.Valid() && GoodTokens(reader.out, Toks())
      requires Tracks(w.Sent(), reader)
      requires reader.mode.Type? && !reader.last
      modifies w, this`lastEobLen, this`reader
      ensures w.Valid() && w.Sent() == old(w.Sent()) + StaticBits(eof, old(reader).out, old(Toks()))
      ensures w.output == old(w.output)
      ensures Tracks(w.Sent(), reader) && reader.mode.Type? && reader.last == eof
      ensures reader.out == Expand(old(reader).out, old(Toks()))
      ensures reader.toks == old(reader).toks + old(Toks())
    {
      hide GoodTables, GoodTokens, Expand, Room, BlRoom, Counts, Tracks, BodyBits, AllCodes, Usable, BitsOf, Pow2;
      ghost var toks, r := Toks(), reader;
      FixedHasAll(toks);
      FixedAreValid();
      StaticUsable(tables);
      AdvanceStatic(w.Sent(), r, eof, toks);
      HeaderFits(1, eof);
      w.SendBits(2 * 1 + Bit(eof), 3);
      lastEobLen := CompressBlock(w, dBuf, lBuf, lastLit, tables, tables.ltree, tables.dtree, FixedCodes(), r.out,
          toks);
      Assoc(old(w.Sent()), HeaderBits(1, eof), BodyBits(FixedCodes(), r.out, toks));
      reader := State(Type, eof, |w.Sent()|, Expand(r.out, toks), r.toks + toks);
    }

    /** A block with codes of its own. */
    method SendDynamic(eof: bool, lMax: nat, dMax: nat, maxBlindex: nat, ghost t: Trees)
      requires Shape() && lastLit < litBufsize && w.Valid() && GoodTokens(reader.out, Toks())
      requires Tracks(w.Sent(), reader)
      requires reader.mode.Type? && !reader.last
      requires BuiltBlock(ltree[..], dtree[..], blTree[..], lMax, dMax, maxBlindex, t, Toks())
      modifies w, this`lastEobLen, this`reader
      ensures w.Valid() && w.Sent() == old(w.Sent()) + DynamicBits(eof, old(reader).out, old(Toks()), t)
      ensures w.output == old(w.output)
      ensures Tracks(w.Sent(), reader) && reader.mode.Type? && reader.last == eof
      ensures reader.out == Expand(old(reader).out, old(Toks()))
      ensures reader.toks == old(reader).toks + old(Toks())
    {
      hide GoodTables, GoodTokens, Expand, Room, BlRoom, Counts, Tracks, BodyBits, AllCodes, Usable, BitsOf, Pow2,
           TreesBits, GoodTrees, Coded, Guarded;
      ghost var toks, r := Toks(), reader;
      AdvanceDynamic(w.Sent(), r, eof, toks, t);
      HeaderFits(2, eof);
      w.SendBits(2 * 2 + Bit(eof), 3);
      SendAllTrees(w, lMax + 1, dMax + 1, maxBlindex + 1, ltree, dtree, blTree, t);
      lastEobLen := CompressBlock(w, dBuf, lBuf, lastLit, tables, ltree[..], dtree[..], t.c, r.out, toks);
      Assoc(old(w.Sent()) + HeaderBits(2, eof), TreesBits(t), BodyBits(t.c, r.out, toks));
      Assoc(old(w.Sent()), HeaderBits(2, eof), TreesBits(t) + BodyBits(t.c, r.out, toks));
      reader := State(Type, eof, |w.Sent()|, Expand(r.out, toks), r.toks + toks);
    }

    /** _tr_stored_block. */
    method TrStoredBlock(buf: seq<byte>, eof: bool)
      requires w.Valid() && Tracks(w.Sent(), reader) && reader.mode.Type? && !reader.last && |buf| < 0x10000
      modifies w, this`lastEobLen, this`reader
      ensures w.Valid() && w.Sent() == old(w.Sent()) + StoredBits(old(|w.Sent()|), eof, buf)
      ensures w.output == old(w.output)
      ensures Tracks(w.Sent(), reader) && reader.mode.Type? && reader.last == eof && reader.out == old(reader.out) + buf
      ensures w.biValid == 0
      ensures reader.toks == old(reader.toks)
    {
      hide Tracks, BitsOf, Pow2, BytesBits, Padding;
      ghost var sent, r := w.Sent(), reader;
      AdvanceStored(sent, r, eof, buf);
      HeaderFits(0, eof);
      w.SendBits(2 * 0 + Bit(eof), 3);
      w.CopyBlock(buf);
      lastEobLen := 8;
      Assoc(sent, HeaderBits(0, eof), Padding(|sent| + 3) + ((BitsOf(|buf|, 16) + BitsOf(0xffff - |buf|, 16))
          + BytesBits(buf)));
      reader := State(Type, eof, |w.Sent()|, r.out + buf, r.toks);
    }

    /** An empty block with the fixed codes. */
    method SendEmpty()
      requires Shape() && w.Valid() && Tracks(w.Sent(), reader) && reader.mode.Type? && !reader.last
      modifies w, this`reader
      ensures w.Valid() && w.Sent() == old(w.Sent()) + StaticBits(false, old(reader).out, [])
      ensures w.output == old(w.output)
      ensures Tracks(w.Sent(), reader) && reader.mode.Type? && !reader.last && reader.out == old(reader).out
      ensures reader.toks == old(reader).toks
    {
      hide GoodTables, Room, BlRoom, Tracks, Usable, BitsOf, Pow2, SymBits, CodeOf;
      ghost var sent, r := w.Sent(), reader;
      AdvanceStatic(sent, r, false, []);
      FixedHasAll([]);
      FixedAreValid();
      StaticUsable(tables);
      HeaderFits(1, false);
      w.SendBits(2 * 1, 3);
      EntryAt(tables.ltree, FixedLens(), 286, 256);
      SendCode(w, tables.ltree[256], FixedLens(), 256);
      assert BodyBits(FixedCodes(), r.out, []) == SymBits(FixedLens(),
          256) by { assert [] + SymBits(FixedLens(), 256) == SymBits(FixedLens(), 256); }
      Assoc(sent, HeaderBits(1, false), SymBits(FixedLens(), 256));
      assert r.toks + [] == r.toks;
      reader := State(Type, false, |w.Sent()|, r.out, r.toks);
    }

    /**
     _tr_align: one empty static block, or two, so that inflate has enough lookahead; the bytes decoded stay the same.
     */
    method TrAlign()
      requires Valid() && reader.mode.Type? && !reader.last
      modifies w, this`lastEobLen, this`reader
      ensures Valid() && reader.mode.Type? && !reader.last && reader.out == old(reader.out) && w.output == old(w.output)
      ensures lastLit == old(lastLit) && Toks() == old(Toks()) && w.biValid < 8 && reader.toks == old(reader.toks)
      ensures var one := StaticBits(false, old(reader).out, []);
              w.Sent() == old(w.Sent()) + one || w.Sent() == old(w.Sent()) + one + one
    {
      hide GoodTables, GoodTokens, Room, BlRoom, Counts, Tracks, StaticBits;
      SendEmpty();
      w.BiFlush();
      if 1 + lastEobLen + 10 - w.biValid < 9 {
        SendEmpty();
        w.BiFlush();
      }
      lastEobLen := 7;
    }

    /** An empty stored block between two others. */
    method SyncBlock()
      requires Valid() && reader.mode.Type? && !reader.last
      modifies w, this`lastEobLen, this`reader
      ensures Valid() && reader.mode.Type? && !reader.last && reader.out == old(reader.out) && w.biValid == 0
      ensures lastLit == old(lastLit) && Toks() == old(Toks()) && w.output == old(w.output)
      ensures reader.toks == old(reader.toks)
    {
      hide Tracks, Counts, GoodTokens, GoodTables, StoredBits;
      TrStoredBlock([], false);
      assert old(reader).out + [] == old(reader).out;
    }

    /** flush_pending: hands over as much output as there is room for. */
    method FlushPending(availOut: nat) returns (left: nat)
      requires Valid()
      modifies w
      ensures Valid() && w.Sent() == old(w.Sent()) && old(w.output) <= w.output && Toks() == old(Toks())
      ensures left + |w.output| == availOut + |old(w.output)| && (left == 0 || w.pending == [])
      ensures w.biValid == old(w.biValid) && w.output + w.pending == old(w.output + w.pending)
    {
      hide Tracks, Counts, GoodTokens, GoodTables;
      left := w.FlushPending(availOut);
    }

    /** The end of the stream. */
    method Windup()
      requires w.Valid() && Tracks(w.Sent(), reader) && reader.mode.Type? && reader.last
      modifies w, this`reader
      ensures w.Valid() && w.Sent() == old(w.Sent()) + Padding(old(|w.Sent()|)) && w.output == old(w.output)
      ensures Tracks(w.Sent(), reader) && reader.mode.Done? && reader.last && reader.out == old(reader.out)
      ensures w.biValid == 0
      ensures reader.toks == old(reader.toks)
    {
      hide Tracks, Padding;
      AdvanceEnd(w.Sent(), reader);
      w.BiWindup();
      reader := reader.(mode := Done, pos := |w.Sent()|);
    }

    /**
     _tr_flush_block: outputs the block of the tokens, or of the bytes data when nothing was tallied, in
     the cheapest of the three encodings. Whatever the choice, the stream now decodes to the bytes
     it decoded to before, followed by those of the block.
     */
    method TrFlushBlock(buf: Option<seq<byte>>, storedLen: nat, eof: bool, ghost data: seq<byte>)
      returns (ghost kind: nat, ghost t: Trees)
      requires Valid() && reader.mode.Type? && !reader.last && storedLen == |data|
      requires buf.Some? ==> buf.value == data && storedLen < 0x10000
      requires level > 0 ==> Expand(reader.out, Toks()) == reader.out + data
      requires level == 0 ==> buf.Some? && lastLit == 0
      modifies Repr()
      ensures Valid() && lastLit == 0 && w.output == old(w.output)
      ensures reader.out == old(reader.out) + data && reader.last == eof
      ensures if eof then reader.mode.Done? && w.biValid == 0 else reader.mode.Type?
      ensures kind <= 2 && (level == 0 ==> kind == 0)
      ensures reader.toks == if kind == 0 then old(reader).toks else old(reader).toks + old(Toks())
      ensures var h, toks := old(reader).out, old(Toks());
              && (level > 0 ==>
                    && GoodTrees(t) && AllCodes(t.c, toks) && HasCode(t.c.ll, 256)
                    && Cheapest3(kind, fixed, buf.Some?, storedLen, |StaticBits(eof, h, toks)|,
                        |DynamicBits(eof, h, toks, t)|))
              && (var bits := if kind == 0 then StoredBits(old(|w.Sent()|), eof, data) else if kind == 1
                  then StaticBits(eof, h, toks)
                              else DynamicBits(eof, h, toks, t);
                  w.Sent() == old(w.Sent()) + bits + if eof then Padding(|old(w.Sent()) + bits|) else [])
    {
      hide GoodTables, GoodTokens, Expand, Room, BlRoom, Counts, Tracks, StaticBits, StoredBits, TreesBits, BodyBits,
           GoodTrees, AllCodes, Padding, BuiltBlock, BytesOf, Cheapest, LitFreqs, DistFreqs, Occurs;
      ghost var h, toks := reader.out, Toks();
      var lMax, dMax, maxBlindex := 0, 0, 0;
      var optLenb, staticLenb;
      if level > 0 {
        lMax, dMax, maxBlindex, t := BuildTrees();
        BuiltFacts(ltree[..], dtree[..], blTree[..], lMax, dMax, maxBlindex, t, toks);
        optLenb := BytesOf(sums.opt + 3);
        staticLenb := BytesOf(sums.stat + 3);
        Choices(h, toks, t, eof);
        if staticLenb <= optLenb {
          optLenb := staticLenb;
        }
      } else {
        t := Trees(Codes([], []), [], 0);
        optLenb, staticLenb := storedLen + 5, storedLen + 5;   // force a stored block
      }
      if storedLen + 4 <= optLenb && buf.Some? {
        kind := 0;
        TrStoredBlock(buf.value, eof);
      } else if fixed || staticLenb == optLenb {
        kind := 1;
        SendStatic(eof);
      } else {
        kind := 2;
        SendDynamic(eof, lMax, dMax, maxBlindex, t);
      }
      EndBlock(eof);
    }

    /** The next block starts, or the stream ends. */
    method EndBlock(eof: bool)
      requires Shape() && lastLit < litBufsize && w.Valid() && Tracks(w.Sent(), reader) && reader.mode.Type?
      requires reader.last == eof
      modifies w, this`lastLit, this`sums, this`reader, ltree, dtree, blTree
      ensures Valid() && lastLit == 0 && w.output == old(w.output) && reader.last == eof
      ensures reader.out == old(reader.out) && reader.toks == old(reader.toks)
      ensures if eof then reader.mode.Done? && w.biValid == 0 else reader.mode.Type?
      ensures w.Sent() == old(w.Sent()) + if eof then Padding(old(|w.Sent()|)) else []
    {
      hide GoodTables, GoodTokens, Expand, Room, BlRoom, Counts, Tracks, Padding;
      ghost var sent := w.Sent();
      InitBlock();
      NoTokens(reader.out);
      if eof {
        Windup();
      } else {
        assert sent + [] == sent;
      }
    }
  }

  lemma NoTokens(h: seq<byte>)
    ensures GoodTokens(h, []) && Expand(h, []) == h
  {
  }

  lemma StaticSize(h: seq<byte>, toks: seq<Token>)
    requires GoodTokens(h, toks)
    ensures AllCodes(FixedCodes(), toks) && HasCode(FixedLens(), 256)
    ensures |StaticBits(false, h, toks)| == |StaticBits(true, h, toks)| == 3 + |BodyBits(FixedCodes(), h, toks)|
  {
    FixedHasAll(toks);
  }

  lemma FixedAreValid()
    ensures ValidLens(FixedLens()) && ValidLens(FixedDists())
  {
  }

  lemma HeaderFits(kind: nat, last: bool)
    requires kind <= 2
    ensures 2 * kind + Bit(last) < Pow2(3)
  {
    Powers();
  }

  lemma BuiltFacts(lt: seq<CtData>, dt: seq<CtData>, bt: seq<CtData>, lMax: nat, dMax: nat, maxBlindex: nat, t: Trees,
                   toks: seq<Token>)
    requires BuiltBlock(lt, dt, bt, lMax, dMax, maxBlindex, t, toks)
    ensures GoodTrees(t) && AllCodes(t.c, toks) && HasCode(t.c.ll, 256)
  {
  }

  lemma Choices(h: seq<byte>, toks: seq<Token>, t: Trees, eof: bool)
    requires GoodTokens(h, toks) && GoodTrees(t) && AllCodes(t.c, toks) && HasCode(t.c.ll, 256)
    ensures |StaticBits(eof, h, toks)| == |StaticBits(false, h, toks)|
    ensures |DynamicBits(eof, h, toks, t)| == |TreesBits(t)| + |BodyBits(t.c, h, toks)| + 3
  {
    hide BodyBits, GoodTrees, AllCodes, TreesBits;
    StaticSize(h, toks);
  }

  lemma RoomForGuard(c: Codes, lMax: nat, dMax: nat)
    requires BlockCodes(c) && |c.ll| == lMax + 1 && |c.dl| == dMax + 1
    ensures lMax <= 285 && dMax <= 29
  {
  }

  lemma CountedFreqs(lt: seq<CtData>, dt: seq<CtData>, toks: seq<Token>)
    requires Tallied(lt, BlockSyms(toks), 286) && Tallied(dt, DistSyms(toks), 30)
    ensures FirstFreqs(lt, 286) == LitFreqs(toks) && FirstFreqs(dt, 30) == DistFreqs(toks)
  {
    hide BlockSyms, DistSyms, Count;
  }

  lemma BlockIsBuilt(lt0: seq<CtData>, dt0: seq<CtData>, lt: seq<CtData>, dt: seq<CtData>, bt: seq<CtData>, lMax: nat,
                     dMax: nat, maxBlindex: nat, t: Trees, toks: seq<Token>)
    requires Coded(lt0, t.c.ll) && Coded(dt0, t.c.dl) && BlockCodes(t.c) && |t.c.ll| == lMax + 1 && |t.c.dl| == dMax + 1
    requires |lt| == |lt0| >= 287 && |dt| == |dt0| >= 31
    requires lt == lt0[lMax + 1 := lt[lMax + 1]] && dt == dt0[dMax + 1 := dt[dMax + 1]]
    requires Guarded(lt, t.c.ll) && Guarded(dt, t.c.dl) && Coded(bt, t.cl) && GoodTrees(t)
    requires t.blcodes == maxBlindex + 1
    requires AllCodes(t.c, toks) && HasCode(t.c.ll, 256)
    ensures BuiltBlock(lt, dt, bt, lMax, dMax, maxBlindex, t, toks)
  {
    hide Guarded, GoodTrees, AllCodes, Usable, Coded;
    GuardKeeps(lt0, t.c.ll, lt[lMax + 1]);
    GuardKeeps(dt0, t.c.dl, dt[dMax + 1]);
    CodedUsable(lt, t.c.ll, 286);
    CodedUsable(dt, t.c.dl, 30);
  }

  /** Counts the symbols of a token. */
  method CountSymbols(ltree: array<CtData>, dtree: array<CtData>, tables: Tables, dist0: nat, lc: byte,
                      ghost bt: seq<CtData>, ghost toks: seq<Token>)
    requires ltree != dtree && GoodTables(tables) && dist0 <= 32768 && Counts(ltree[..], dtree[..], bt, toks)
    modifies ltree, dtree
    ensures Counts(ltree[..], dtree[..], bt, toks + [TokenAt(dist0, lc)])
  {
    hide GoodTables, Tallied, LengthCode, DistCode, BlockSyms, DistSyms;
    ghost var t := TokenAt(dist0, lc);
    LengthEntry(tables, lc);
    if dist0 == 0 {
      AddLit(ltree[..], toks, t, lc);
      NoDist(toks, t);
      AddFreq(ltree, lc, 1);
    } else {
      var dist := dist0 - 1;
      DistEntry(tables, dist);
      var code := tables.lengthCode[lc] + 257;
      AddLit(ltree[..], toks, t, code);
      AddFreq(ltree, code, 1);
      var dcode := DCode(tables.distCode, dist);
      AddDist(dtree[..], toks, t, dcode);
      AddFreq(dtree, dcode, 1);
    }
  }

  lemma ExpandOneMore(h: seq<byte>, toks: seq<Token>, t: Token)
    requires GoodTokens(h, toks) && GoodToken(Expand(h, toks), t)
    ensures GoodTokens(h, toks + [t]) && Expand(h, toks + [t]) == ExpandOne(Expand(h, toks), t)
  {
    ExpandAppend(h, toks, [t]);
    assert [t][1..] == [];
  }

  lemma AddLit(tree: seq<CtData>, toks: seq<Token>, t: Token, s: nat)
    requires Tallied(tree, BlockSyms(toks), 286) && s == LitSym(t)
    ensures s < |tree| && Tallied(tree[s := tree[s].(fc := tree[s].fc + 1)], BlockSyms(toks + [t]), 286)
  {
    hide LitSym;
    assert LitSyms(toks + [t]) == LitSyms(toks) + [s];
    forall x | 0 <= x < 286
      ensures Count(BlockSyms(toks + [t]), x) == Count(BlockSyms(toks), x) + if x == s then 1 else 0
    {
      CountAppend(LitSyms(toks) + [s], [256], x);
      CountAppend(LitSyms(toks), [s], x);
      CountAppend(LitSyms(toks), [256], x);
      assert [s][..0] == [];
    }
  }

  lemma AddDist(tree: seq<CtData>, toks: seq<Token>, t: Token, s: nat)
    requires Tallied(tree, DistSyms(toks), 30) && t.Copy? && s == DistSym(t)
    ensures s < |tree| && Tallied(tree[s := tree[s].(fc := tree[s].fc + 1)], DistSyms(toks + [t]), 30)
  {
    hide DistSym;
    DistSymsAppend(toks, [t]);
    assert [t][1..] == [];
    assert DistSyms([t]) == [s];
    TallyOne(tree, DistSyms(toks), 30, s);
  }

  lemma NoDist(toks: seq<Token>, t: Token)
    requires t.Literal?
    ensures DistSyms(toks + [t]) == DistSyms(toks)
  {
    DistSymsAppend(toks, [t]);
    assert [t][1..] == [];
  }

  method ClearFreqs(tree: array<CtData>, n: nat)
    requires n <= tree.Length
    modifies tree
    ensures forall s :: 0 <= s < n ==> tree[s].fc == 0
  {
    for i := 0 to n
      invariant forall s :: 0 <= s < i ==> tree[s].fc == 0
    {
      tree[i] := tree[i].(fc := 0);
    }
  }

  lemma NothingCounted(lt: seq<CtData>, dt: seq<CtData>, bt: seq<CtData>)
    requires |lt| >= 286 && |dt| >= 30 && |bt| >= 19
    requires forall s :: 0 <= s < 286 ==> lt[s].fc == if s == 256 then 1 else 0
    requires (forall s :: 0 <= s < 30 ==> dt[s].fc == 0) && forall s :: 0 <= s < 19 ==> bt[s].fc == 0
    ensures Counts(lt, dt, bt, [])
  {
    assert BlockSyms([]) == [256];
    forall s | 0 <= s < 286
      ensures Count([256], s) == if s == 256 then 1 else 0
    {
      assert [256][..0] == [];
    }
  }
}
