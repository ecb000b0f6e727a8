/** build_bl_tree and send_all_trees (trees.c): the code length code, and the header of a dynamic block. */
module DynamicTrees {
  import opened Shift
  import opened Bits
  import opened Canonical
  import opened InfTreesSpec
  import opened Format
  import opened FormatFacts
  import opened BlockCode
  import opened RunLength
  import opened BlockRoundTrip
  import opened BlockLength
  import opened Heap
  import opened HuffmanQueue
  import opened TreeDepth
  import opened BitLengths
  import opened DynTree
  import opened StaticTables
  import opened BitWriting
  import opened TreeSending

  const BL_CODES := 19

  function BlDesc(): Desc
  {
    Desc(BL_CODES, 7, EXTRA_BLBITS, 0, [])
  }

  lemma BlDescValid()
    ensures ValidDesc(BlDesc(), RunExtra())
  {
    var xb := RunExtra();
    Powers();
    assert |EXTRA_BLBITS| == 19;
    forall n | 0 <= n < 19
      ensures xb[n] == XBits(EXTRA_BLBITS, 0, n)
    {
    }
  }

  // ---------- few run-length symbols, one of them a length ----------

  lemma EmitShort(cur: nat, prev: int, count: nat)
    requires count >= 1
    ensures |Emit(cur, prev, count)| <= count
  {
  }

  lemma {:induction false} OpsShort(lens: seq<nat>, n: nat, count: nat, prev: int)
    requires n <= |lens|
    ensures |Ops(lens, n, count, prev)| <= |lens| - n + count
    decreases |lens| - n
  {
    hide Emit;
    if n < |lens| {
      EmitShort(lens[n], prev, count + 1);
      OpsShort(lens, n + 1, count + 1, prev);
      OpsShort(lens, n + 1, 0, lens[n]);
    }
  }

  ghost predicate AllZero(h: seq<nat>)
  {
    forall i :: 0 <= i < |h| ==> h[i] == 0
  }

  lemma {:induction false} OnlyRepeats(h: seq<nat>, ops: seq<Op>)
    requires AllZero(h) && forall i :: 0 <= i < |ops| ==> !(1 <= ops[i].sym <= 15)
    ensures AllZero(Read(h, ops))
    decreases |ops|
  {
    if ops != [] {
      assert AllZero(ReadOne(h, ops[0]));
      OnlyRepeats(ReadOne(h, ops[0]), ops[1..]);
    }
  }

  /** Some length is not zero, so some symbol is a length. */
  lemma SomeLength(lens: seq<nat>, k: nat) returns (i: nat)
    requires k < |lens| && lens[k] > 0 && forall j :: 0 <= j < |lens| ==> lens[j] < 16
    ensures i < |Ops(lens, 0, 0, -1)| && 1 <= Ops(lens, 0, 0, -1)[i].sym <= 15
  {
    hide Ops, Read, ReadOne;
    var ops := Ops(lens, 0, 0, -1);
    assert [] + lens == lens;
    ReadAll([], lens);
    if i0: nat :| i0 < |ops| && 1 <= ops[i0].sym <= 15 {
      i := i0;
    } else {
      OnlyRepeats([], ops);
      assert false;
    }
  }

  // ---------- the lengths of all 19 symbols ----------

  /** Lengths followed by zeros give every symbol the same code. */
  lemma SameCode(lens: seq<nat>, k: nat, s: nat)
    requires k <= |lens| && (forall i :: k <= i < |lens| ==> lens[i] == 0) && s < k && lens[s] > 0
    ensures Code(lens, s) == Code(lens[..k], s) && Reversed(lens, s) == Reversed(lens[..k], s)
  {
    hide Rev;
    UsedPrefix(lens, k, lens[s] - 1);
    assert lens[..k][..s] == lens[..s];
    if lens[s] > 1 {
      assert NextCode(lens, lens[s]) == 2 * Used(lens, lens[s] - 1);
      assert NextCode(lens[..k], lens[s]) == 2 * Used(lens[..k], lens[s] - 1);
    }
  }

  lemma AllCoded(t: seq<CtData>, lens: seq<nat>, cl: seq<nat>, n: nat)
    requires Coded(t, lens) && |lens| <= n <= |t| && cl == Lens(t, n) && forall s :: |lens| <= s < n ==> t[s].dl == 0
    ensures cl[..|lens|] == lens && Coded(t, cl)
    ensures forall i :: |lens| <= i < n ==> cl[i] == 0
  {
    hide Reversed;
    assert cl[..|lens|] == lens;
    forall s: nat | s < n && cl[s] > 0
      ensures t[s].fc == Reversed(cl, s)
    {
      SameCode(cl, |lens|, s);
    }
  }

  lemma AllComplete(lens: seq<nat>, cl: seq<nat>)
    requires |lens| <= |cl| && cl[..|lens|] == lens && Complete(lens) && forall i :: |lens| <= i < |cl| ==> cl[i] == 0
    ensures Complete(cl)
  {
    UsedPrefix(cl, |lens|, MAXBITS);
  }

  // ---------- build_bl_tree ----------

  /** The codes of both trees of a block, as build_tree leaves them. */
  ghost predicate BlockCodes(c: Codes)
  {
    && 257 <= |c.ll| <= 286 && 1 <= |c.dl| <= 30 && ValidLens(c.ll) && ValidLens(c.dl)
    && Complete(c.ll) && Complete(c.dl) && c.ll[256] > 0
  }

  lemma SymsFew(c: Codes)
    requires BlockCodes(c)
    ensures Total(Occs(TreeSyms(c), 19), 19) <= 316
  {
    hide Ops, Total, Count;
    OpsShort(c.ll, 0, 0, -1);
    OpsShort(c.dl, 0, 0, -1);
    TreeSymsBelow(c);
    TotalOccs(TreeSyms(c), 19);
  }

  lemma TalliedFreqs(tree: seq<CtData>, syms: seq<nat>, n: nat)
    requires Tallied(tree, syms, n)
    ensures FirstFreqs(tree, n) == Occs(syms, n)
  {
  }

  /** What build_tree says about the code length code. */
  lemma BlBuilt(tree: seq<CtData>, maxCode: nat, lens: seq<nat>, c: Codes, cl: seq<nat>)
    requires Built(Occs(TreeSyms(c), 19), tree, BlDesc(), maxCode, lens) && 19 <= |tree| && cl == Lens(tree, 19)
    ensures Coded(tree, cl) && ValidLens(cl) && Covers(Occs(TreeSyms(c), 19), cl) && Acceptable(CODES, cl)
    ensures forall i :: 0 <= i < 19 ==> cl[i] < 8
    ensures |lens| <= 19 && cl[..|lens|] == lens && forall i :: |lens| <= i < 19 ==> cl[i] == 0
  {
    hide Ops, Count, Used, Coded;
    AllCoded(tree, lens, cl, 19);
    AllComplete(lens, cl);
    CompleteAcceptable(CODES, cl);
    forall i | 0 <= i < 19
      ensures cl[i] < 8
    {
      assert i < |lens| ==> cl[i] == lens[i];
    }
  }

  lemma CompleteAcceptable(kind: Kind, lens: seq<nat>)
    requires Complete(lens)
    ensures Acceptable(kind, lens)
  {
  }

  /** Where the loop over bl_order stops: at the last code length with a code, and not below the fourth. */
  ghost predicate NoneAfter(cl: seq<nat>, k: nat)
  {
    |cl| == 19 && forall i :: k <= i < 19 ==> cl[ORDER[i]] == 0
  }

  /** A length has a code, and its place in the order of sending is beyond the three repeat symbols. */
  lemma StopsInTime(c: Codes, cl: seq<nat>)
    requires BlockCodes(c) && |cl| == 19 && Covers(Occs(TreeSyms(c), 19), cl)
    ensures !NoneAfter(cl, 3)
  {
    hide Ops, Count;
    SmallLens(c.ll);
    var i := SomeLength(c.ll, 256);
    var s := Ops(c.ll, 0, 0, -1)[i].sym;
    assert TreeSyms(c)[i] == s;
    CountPositive(TreeSyms(c), i);
    assert Occs(TreeSyms(c), 19)[s] > 0;
    OrderAndRank(s);
    LateRank(s);
  }

  lemma LateRank(s: nat)
    requires s <= 15
    ensures RANK[s] >= 3
  {
  }

  lemma NoneAfterStep(cl: seq<nat>, k: nat)
    requires NoneAfter(cl, k + 1) && k < 19 && cl[ORDER[k]] == 0
    ensures NoneAfter(cl, k)
  {
  }

  lemma BlockCodesValid(c: Codes)
    requires BlockCodes(c)
    ensures ValidLens(c.ll) && ValidLens(c.dl)
  {
  }

  /** The tree representation takes the bits counted. */
  lemma TreesCounted(t: Trees, lens: seq<nat>, opt0: int, opt1: int)
    requires BlockCodes(t.c) && |t.cl| == 19 && Covers(Occs(TreeSyms(t.c), 19), t.cl) && Acceptable(CODES, t.cl)
    requires (forall i :: 0 <= i < 19 ==> t.cl[i] < 8) && 4 <= t.blcodes <= 19 && NoneAfter(t.cl, t.blcodes)
    requires |lens| <= 19 && t.cl[..|lens|] == lens && forall i :: |lens| <= i < 19 ==> t.cl[i] == 0
    requires opt1 == opt0 + BitsTotal(Occs(TreeSyms(t.c), 19), lens, RunExtra(), |lens|)
    ensures GoodTrees(t) && |TreesBits(t)| == opt1 - opt0 + 3 * t.blcodes + 14
  {
    hide Ops, Count, BitsTotal, HasOps, LensBits, BlockCodes, Acceptable, SentBits, CountsBits, Covers, TreeSyms,
         GoodTrees;
    BlockCodesValid(t.c);
    TreesAreGood(t);
    var f := Occs(TreeSyms(t.c), 19);
    BitsTotalTrim(f, t.cl, RunExtra(), |lens|, 19);
    LensLength(t);
    CountsLength(t);
  }

  lemma TreesAreGood(t: Trees)
    requires BlockCodes(t.c) && |t.cl| == 19 && Covers(Occs(TreeSyms(t.c), 19), t.cl) && Acceptable(CODES, t.cl)
    requires (forall i :: 0 <= i < 19 ==> t.cl[i] < 8) && 4 <= t.blcodes <= 19 && NoneAfter(t.cl, t.blcodes)
    ensures GoodTrees(t)
  {
    hide Ops, Count, BitsTotal, HasOps, LensBits, Used, Acceptable, Covers, TreeSyms;
    LensLength(t);
    CompleteAcceptable(LENS, t.c.ll);
    CompleteAcceptable(DISTS, t.c.dl);
  }

  /** The sizes of the arrays used to build the code length code. */
  ghost predicate BlRoom(ltree: array<CtData>, dtree: array<CtData>, blTree: array<CtData>,
                         heap: array<nat>, depth: array<nat>, blCount: array<nat>)
  {
    && ltree != dtree && ltree != blTree && dtree != blTree && blTree.Length == 2 * BL_CODES + 1
    && Room(blTree, heap, depth, blCount, BlDesc())
  }

  lemma BlRoomIs(ltree: array<CtData>, dtree: array<CtData>, blTree: array<CtData>,
                 heap: array<nat>, depth: array<nat>, blCount: array<nat>)
    requires BlRoom(ltree, dtree, blTree, heap, depth, blCount)
    ensures Room(blTree, heap, depth, blCount, BlDesc()) && blTree.Length == 39
    ensures ltree != dtree && ltree != blTree && dtree != blTree
  {
  }

  lemma BlDescIs()
    ensures BlDesc().elems == 19 && BlDesc().slens == []
  {
  }

  lemma CountedOpt(at0: Sums, at1: Sums, f: seq<nat>, lens: seq<nat>, xb: seq<nat>)
    requires Counted(at0, at1, f, lens, BlDesc(), xb)
    ensures |lens| <= |f| && |lens| <= |xb| && at1.opt == at0.opt + BitsTotal(f, lens, xb, |lens|)
    ensures at1.stat == at0.stat
  {
  }

  /**
   build_bl_tree: the code for the code lengths, and the index in bl_order of the last bit length code to send.
   */
  method BuildBlTree(ltree: array<CtData>, lMax: nat, dtree: array<CtData>, dMax: nat, blTree: array<CtData>,
                     heap: array<nat>, depth: array<nat>, blCount: array<nat>, sums0: Sums, ghost c: Codes)
    returns (maxBlindex: nat, sums: Sums, ghost t: Trees)
    requires BlRoom(ltree, dtree, blTree, heap, depth, blCount) && BlockCodes(c)
    requires lMax + 1 < ltree.Length && dMax + 1 < dtree.Length
    requires c.ll == Lens(ltree[..], lMax + 1) && c.dl == Lens(dtree[..], dMax + 1)
    requires Tallied(blTree[..], [], 19)
    modifies ltree, dtree, blTree, heap, depth, blCount
    ensures ltree[..] == old(ltree[..])[lMax + 1 := old(ltree[lMax + 1]).(dl := GUARD)]
    ensures dtree[..] == old(dtree[..])[dMax + 1 := old(dtree[dMax + 1]).(dl := GUARD)]
    ensures Guarded(ltree[..], c.ll) && Guarded(dtree[..], c.dl)
    ensures t == Trees(c, t.cl, maxBlindex + 1) && GoodTrees(t) && Coded(blTree[..], t.cl)
    ensures sums.opt == sums0.opt + |TreesBits(t)| && sums.stat == sums0.stat
  {
    hide Tallied, Guarded, Ops, BlRoom, Built, Counted, Coded, Total, BlDesc, Room, NoneAfter, Acceptable, Used, Covers,
         TreesBits, GoodTrees, BitsTotal, Occurs, Deep, Fib, Cheapest, TreeOf, FairCodes, Lens;
    BlRoomIs(ltree, dtree, blTree, heap, depth, blCount);
    SmallLens(c.ll);
    SmallLens(c.dl);
    ScanTree(ltree, lMax, blTree, c.ll, []);
    ScanTree(dtree, dMax, blTree, c.dl, [] + Syms(Ops(c.ll, 0, 0, -1)));
    assert [] + Syms(Ops(c.ll, 0, 0, -1)) + Syms(Ops(c.dl, 0, 0, -1)) == TreeSyms(c);
    TalliedFreqs(blTree[..], TreeSyms(c), 19);
    SymsFew(c);
    BlDescValid();
    BlDescIs();
    ghost var f := Occs(TreeSyms(c), 19);
    var maxCode;
    ghost var lens, tree;
    maxCode, sums, lens, tree := BuildTree(blTree, heap, depth, blCount, BlDesc(), sums0, RunExtra());
    CountedOpt(sums0, sums, f, lens, RunExtra());
    ghost var bt := blTree[..];
    ghost var cl := Lens(bt, 19);
    BlBuilt(bt, maxCode, lens, c, cl);
    StopsInTime(c, cl);
    maxBlindex := BL_CODES - 1;
    NoneLast(cl);
    while maxBlindex >= 3
      invariant 2 <= maxBlindex < 19 && NoneAfter(cl, maxBlindex + 1) && blTree[..] == bt
      modifies {}
    {
      OrderAndRank(maxBlindex);
      if blTree[ORDER[maxBlindex]].dl != 0 {
        break;
      }
      NoneAfterStep(cl, maxBlindex);
      maxBlindex := maxBlindex - 1;
    }
    t := Trees(c, cl, maxBlindex + 1);
    TreesCounted(t, lens, sums0.opt, sums.opt);
    sums := sums.(opt := sums.opt + 3 * (maxBlindex + 1) + 5 + 5 + 4);
  }

  lemma NoneLast(cl: seq<nat>)
    requires |cl| == 19
    ensures NoneAfter(cl, 19)
  {
  }

  // ---------- send_all_trees ----------

  lemma SentBitsStep(cl: seq<nat>, from: nat, n: nat)
    requires |cl| == 19 && from <= n <= 19
    ensures SentBits(cl, from, n) == if from == n then [] else BitsOf(cl[ORDER[from]], 3) + SentBits(cl, from + 1, n)
  {
    hide BitsOf;
  }

  lemma {:induction false} SentBitsSnoc(cl: seq<nat>, from: nat, k: nat)
    requires |cl| == 19 && from <= k < 19
    ensures SentBits(cl, from, k + 1) == SentBits(cl, from, k) + BitsOf(cl[ORDER[k]], 3)
    decreases k - from
  {
    hide BitsOf, SentBits;
    SentBitsStep(cl, from, k);
    SentBitsStep(cl, from, k + 1);
    if from == k {
      SentBitsStep(cl, k + 1, k + 1);
    } else {
      SentBitsSnoc(cl, from + 1, k);
      Assoc(BitsOf(cl[ORDER[from]], 3), SentBits(cl, from + 1, k), BitsOf(cl[ORDER[k]], 3));
    }
  }

  lemma CountsFit(t: Trees)
    requires GoodTrees(t)
    ensures 257 <= |t.c.ll| && |t.c.ll| - 257 < Pow2(5) && 1 <= |t.c.dl| && |t.c.dl| - 1 < Pow2(5)
    ensures 4 <= t.blcodes <= 19 && t.blcodes - 4 < Pow2(4)
    ensures |t.cl| == 19 && forall i :: 0 <= i < 19 ==> t.cl[i] < Pow2(3)
    ensures HasOps(t.cl, Ops(t.c.ll, 0, 0, -1)) && HasOps(t.cl, Ops(t.c.dl, 0, 0, -1)) && ValidLens(t.cl)
  {
    Powers();
  }

  lemma HeaderParts(sent: Bits, a: Bits, b: Bits, c: Bits, s: Bits, l: Bits, d: Bits)
    ensures sent + a + b + c + s + l + d == sent + ((a + (b + c)) + (s + (l + d)))
  {
  }

  /** send_all_trees: the header of a dynamic block. */
  method SendAllTrees(w: BitWriter, lcodes: nat, dcodes: nat, blcodes: nat,
                      ltree: array<CtData>, dtree: array<CtData>, blTree: array<CtData>, ghost t: Trees)
    requires w.Valid() && GoodTrees(t) && Coded(blTree[..], t.cl)
    requires lcodes == |t.c.ll| && dcodes == |t.c.dl| && blcodes == t.blcodes
    requires Guarded(ltree[..], t.c.ll) && Guarded(dtree[..], t.c.dl)
    modifies w
    ensures w.Valid() && w.Sent() == old(w.Sent()) + TreesBits(t) && w.output == old(w.output)
  {
    hide GoodTrees, Coded, Guarded, Ops, HasOps, OpsBits, BitsOf, Pow2, ValidLens, SentBits;
    CountsFit(t);
    w.SendBits(lcodes - 257, 5);
    w.SendBits(dcodes - 1, 5);
    w.SendBits(blcodes - 4, 4);
    SendLengths(w, blcodes, blTree, t);
    SendTree(w, ltree, lcodes - 1, blTree, t.c.ll, t.cl);
    SendTree(w, dtree, dcodes - 1, blTree, t.c.dl, t.cl);
    HeaderParts(old(w.Sent()), BitsOf(lcodes - 257, 5), BitsOf(dcodes - 1, 5), BitsOf(blcodes - 4, 4),
                SentBits(t.cl, 0, blcodes), OpsBits(t.cl, Ops(t.c.ll, 0, 0, -1)), OpsBits(t.cl, Ops(t.c.dl, 0, 0, -1)));
  }

  /** The lengths of the bit length code, in the order of sending. */
  method SendLengths(w: BitWriter, blcodes: nat, blTree: array<CtData>, ghost t: Trees)
    requires w.Valid() && GoodTrees(t) && Coded(blTree[..], t.cl) && blcodes == t.blcodes
    modifies w
    ensures |t.cl| == 19 && blcodes <= 19
    ensures w.Valid() && w.Sent() == old(w.Sent()) + SentBits(t.cl, 0, blcodes) && w.output == old(w.output)
  {
    hide GoodTrees, Coded, BitsOf, Pow2, ValidLens, SentBits;
    CountsFit(t);
    ghost var sent := w.Sent();
    assert SentBits(t.cl, 0, 0) == [] by { NothingSent(t.cl); }
    assert sent + [] == sent;
    for rank := 0 to blcodes
      invariant w.Valid() && w.output == old(w.output) && w.Sent() == sent + SentBits(t.cl, 0, rank)
    {
      OrderAndRank(rank);
      LenAt(blTree[..], t.cl, ORDER[rank]);
      w.SendBits(blTree[ORDER[rank]].dl, 3);
      SentBitsSnoc(t.cl, 0, rank);
      Assoc(sent, SentBits(t.cl, 0, rank), BitsOf(t.cl[ORDER[rank]], 3));
    }
  }

  lemma NothingSent(cl: seq<nat>)
    requires |cl| == 19
    ensures SentBits(cl, 0, 0) == []
  {
  }

  lemma LenAt(tree: seq<CtData>, lens: seq<nat>, s: nat)
    requires Coded(tree, lens) && s < |lens|
    ensures s < |tree| && tree[s].dl == lens[s]
  {
  }
}
