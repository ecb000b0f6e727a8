/** scan_tree and send_tree (trees.c): counting and sending code lengths as runs. */
module TreeSending {
  import opened Shift
  import opened Bits
  import opened Canonical
  import opened InfTreesSpec
  import opened Format
  import opened FormatFacts
  import opened BlockCode
  import opened RunLength
  import opened BlockRoundTrip
  import opened BlockLength
  import opened Heap
  import opened HuffmanQueue
  import opened BitLengths
  import opened DynTree
  import opened StaticTables
  import opened BitWriting

  // ---------- counting the run-length symbols ----------

  /** The frequencies of the first n symbols are those of the list. */
  ghost predicate Tallied(tree: seq<CtData>, syms: seq<nat>, n: nat)
  {
    n <= |tree| && forall s :: 0 <= s < n ==> tree[s].fc == Count(syms, s)
  }

  lemma {:induction false} CountPlain(cur: nat, count: nat, s: nat)
    ensures Count(Syms(seq(count, _ => Op(cur, 0))), s) == if s == cur then count else 0
    decreases count
  {
    var ops := seq(count, _ => Op(cur, 0));
    if count > 0 {
      CountPlain(cur, count - 1, s);
      assert Syms(ops)[..count - 1] == Syms(seq(count - 1, _ => Op(cur, 0)));
    }
  }

  lemma TallyOne(tree: seq<CtData>, syms: seq<nat>, n: nat, s: nat)
    requires Tallied(tree, syms, n) && s < n
    ensures Tallied(tree[s := tree[s].(fc := tree[s].fc + 1)], syms + [s], n)
  {
    forall x | 0 <= x < n
      ensures Count(syms + [s], x) == Count(syms, x) + if x == s then 1 else 0
    {
      assert (syms + [s])[..|syms|] == syms;
    }
  }

  lemma TallyPlain(tree: seq<CtData>, syms: seq<nat>, n: nat, cur: nat, count: nat)
    requires Tallied(tree, syms, n) && cur < n
    ensures Tallied(tree[cur := tree[cur].(fc := tree[cur].fc + count)], syms + Syms(seq(count, _ => Op(cur, 0))), n)
  {
    forall x | 0 <= x < n
      ensures Count(syms + Syms(seq(count, _ => Op(cur, 0))), x) == Count(syms, x) + if x == cur then count else 0
    {
      CountAppend(syms, Syms(seq(count, _ => Op(cur, 0))), x);
      CountPlain(cur, count, x);
    }
  }

  method AddFreq(tree: array<CtData>, s: nat, k: nat)
    requires s < tree.Length
    modifies tree
    ensures tree[..] == old(tree[..])[s := old(tree[s]).(fc := old(tree[s]).fc + k)]
  {
    tree[s] := tree[s].(fc := tree[s].fc + k);
  }

  /** The branches of scan_tree for a run of count lengths cur. */
  method CountRun(blTree: array<CtData>, cur: nat, prev: int, count: nat, min: nat, ghost syms: seq<nat>)
    requires blTree.Length >= 19 && Tallied(blTree[..], syms, 19) && cur < 16 && min == MinCount(prev, cur)
    modifies blTree
    ensures Tallied(blTree[..], syms + Syms(Emit(cur, prev, count)), 19)
  {
    hide Tallied;
    if count < min {
      TallyPlain(blTree[..], syms, 19, cur, count);
      AddFreq(blTree, cur, count);
    } else if cur != 0 {
      ghost var all := syms;
      if cur != prev {
        TallyOne(blTree[..], all, 19, cur);
        AddFreq(blTree, cur, 1);
        all := all + [cur];
      }
      TallyOne(blTree[..], all, 19, REP_3_6);
      AddFreq(blTree, REP_3_6, 1);
      assert all + [REP_3_6] == syms + Syms(Emit(cur, prev, count));
    } else if count <= 10 {
      TallyOne(blTree[..], syms, 19, REPZ_3_10);
      AddFreq(blTree, REPZ_3_10, 1);
      assert syms + [REPZ_3_10] == syms + Syms(Emit(cur, prev, count));
    } else {
      TallyOne(blTree[..], syms, 19, REPZ_11_138);
      AddFreq(blTree, REPZ_11_138, 1);
      assert syms + [REPZ_11_138] == syms + Syms(Emit(cur, prev, count));
    }
  }

  /** tree holds the lengths lens, with the guard behind them. */
  ghost predicate Guarded(tree: seq<CtData>, lens: seq<nat>)
  {
    && |lens| < |tree| && (forall i :: 0 <= i < |lens| ==> tree[i].dl == lens[i]) && tree[|lens|].dl == GUARD
    && forall i :: 0 <= i < |lens| ==> lens[i] < 16
  }

  lemma GuardedAt(tree: seq<CtData>, lens: seq<nat>, n: nat)
    requires Guarded(tree, lens) && n <= |lens| && n < |tree|
    ensures tree[n].dl == NextLen(lens, n) && (n < |lens| ==> tree[n].dl < 16)
  {
  }

  /**
   Where the loops of scan_tree and send_tree stand: the symbols found so far, and those of the rest, make up Ops(lens,
   0, 0, -1).
   */
  ghost predicate Scanning(lens: seq<nat>, n: nat, count: nat, prev: int, next: nat, max: nat, min: nat, ops: seq<Op>)
  {
    && n <= |lens| && next == NextLen(lens, n) && InRun(lens, n, count, prev)
    && (n < |lens| ==> max == MaxCount(prev, next) && min == MinCount(prev, next))
    && ops + Ops(lens, n, count, prev) == Ops(lens, 0, 0, -1)
  }

  lemma ScanStarts(lens: seq<nat>)
    requires lens != []
    ensures Scanning(lens, 0, 0, -1, lens[0], if lens[0] == 0 then 138 else 7, if lens[0] == 0 then 3 else 4, [])
  {
    assert [] + Ops(lens, 0, 0, -1) == Ops(lens, 0, 0, -1);
  }

  lemma ScanGoesOn(lens: seq<nat>, n: nat, count: nat, prev: int, next: nat, max: nat, min: nat, ops: seq<Op>)
    requires Scanning(lens, n, count, prev, next, max, min, ops) && n < |lens| && forall i :: 0 <= i < |lens| ==>
             lens[i] < 16
    requires count + 1 < max && next == NextLen(lens, n + 1)
    ensures Scanning(lens, n + 1, count + 1, prev, next, max, min, ops)
  {
    RunGoesOn(lens, n, count, prev);
  }

  lemma ScanEmits(lens: seq<nat>, n: nat, count: nat, prev: int, next: nat, max: nat, min: nat, ops: seq<Op>)
    requires Scanning(lens, n, count, prev, next, max, min, ops) && n < |lens| && forall i :: 0 <= i < |lens| ==>
             lens[i] < 16
    requires !(count + 1 < max && next == NextLen(lens, n + 1))
    ensures var next1 := NextLen(lens, n + 1);
            Scanning(lens, n + 1, 0, next, next1,
                     if next1 == 0 then 138 else if next == next1 then 6 else 7, if next1 == 0 || next == next1 then 3
                         else 4,
                     ops + Emit(next, prev, count + 1))
    ensures next < 16 && min == MinCount(prev, next) && count + 1 <= MaxCount(prev, next) && prev == next ==> n > count
  {
    RunEnds(lens, n, count, prev);
    var e, rest := Emit(next, prev, count + 1), Ops(lens, n + 1, 0, next);
    assert ops + (e + rest) == ops + e + rest;
  }

  lemma ScanRun(lens: seq<nat>, n: nat, count: nat, prev: int, next: nat, max: nat, min: nat, ops: seq<Op>)
    requires Scanning(lens, n, count, prev, next, max, min, ops) && n < |lens| && forall i :: 0 <= i < |lens| ==>
             lens[i] < 16
    ensures next < 16 && min == MinCount(prev, next) && count + 1 <= MaxCount(prev, next)
  {
  }

  lemma ScanEnds(lens: seq<nat>, n: nat, count: nat, prev: int, next: nat, max: nat, min: nat, ops: seq<Op>)
    requires Scanning(lens, n, count, prev, next, max, min, ops) && n >= |lens|
    ensures ops == Ops(lens, 0, 0, -1)
  {
    assert ops + [] == ops;
  }

  method SetGuard(tree: array<CtData>, maxCode: nat, ghost lens: seq<nat>)
    requires maxCode + 1 < tree.Length && lens == Lens(tree[..], maxCode + 1) && forall i :: 0 <= i < |lens| ==>
             lens[i] < 16
    modifies tree
    ensures tree[..] == old(tree[..])[maxCode + 1 := old(tree[maxCode + 1]).(dl := GUARD)] && Guarded(tree[..], lens)
  {
    tree[maxCode + 1] := tree[maxCode + 1].(dl := GUARD);
  }

  lemma SymsOfMore(syms: seq<nat>, ops: seq<Op>, e: seq<Op>)
    ensures syms + Syms(ops) + Syms(e) == syms + Syms(ops + e)
  {
  }

  /** scan_tree: adds the frequencies of the run-length symbols of one tree. */
  method ScanTree(tree: array<CtData>, maxCode: nat, blTree: array<CtData>, ghost lens: seq<nat>, ghost syms: seq<nat>)
    requires tree != blTree && maxCode + 1 < tree.Length && blTree.Length >= 19
    requires lens == Lens(tree[..], maxCode + 1) && forall i :: 0 <= i < |lens| ==> lens[i] < 16
    requires Tallied(blTree[..], syms, 19)
    modifies tree, blTree
    ensures Tallied(blTree[..], syms + Syms(Ops(lens, 0, 0, -1)), 19)
    ensures tree[..] == old(tree[..])[maxCode + 1 := old(tree[maxCode + 1]).(dl := GUARD)] && Guarded(tree[..], lens)
  {
    hide Tallied, Scanning, Guarded, Emit, Ops;
    ghost var ops := [];
    var prevlen: int, nextlen: nat, count: nat := -1, tree[0].dl, 0;
    var max: nat, min: nat := 7, 4;
    if nextlen == 0 {
      max, min := 138, 3;
    }
    SetGuard(tree, maxCode, lens);
    ScanStarts(lens);
    assert syms + Syms(ops) == syms;
    ghost var t := tree[..];
    for n := 0 to maxCode + 1
      invariant tree[..] == t && blTree.Length >= 19
      invariant Tallied(blTree[..], syms + Syms(ops), 19) && Scanning(lens, n, count, prevlen, nextlen, max, min, ops)
    {
      var curlen := nextlen;
      GuardedAt(t, lens, n + 1);
      assert t[n + 1] == tree[n + 1];
      nextlen := tree[n + 1].dl;
      ScanRun(lens, n, count, prevlen, curlen, max, min, ops);
      count := count + 1;
      if count < max && curlen == nextlen {
        ScanGoesOn(lens, n, count - 1, prevlen, curlen, max, min, ops);
      } else {
        ScanEmits(lens, n, count - 1, prevlen, curlen, max, min, ops);
        CountRun(blTree, curlen, prevlen, count, min, syms + Syms(ops));
        SymsOfMore(syms, ops, Emit(curlen, prevlen, count));
        ops := ops + Emit(curlen, prevlen, count);
        count := 0;
        prevlen := curlen;
        if nextlen == 0 {
          max, min := 138, 3;
        } else if curlen == nextlen {
          max, min := 6, 3;
        } else {
          max, min := 7, 4;
        }
      }
    }
    ScanEnds(lens, maxCode + 1, count, prevlen, nextlen, max, min, ops);
  }

  // ---------- sending ----------

  /** The tree entry e is the code of symbol s of the code with the lengths lens. */
  ghost predicate CodeOf(e: CtData, lens: seq<nat>, s: nat)
  {
    HasCode(lens, s) && e.dl == lens[s] && e.fc == Reversed(lens, s)
  }

  lemma CodedAt(tree: seq<CtData>, lens: seq<nat>, s: nat)
    requires Coded(tree, lens) && HasCode(lens, s)
    ensures s < |tree| && CodeOf(tree[s], lens, s)
  {
  }

  lemma CodeFitsBits(e: CtData, lens: seq<nat>, s: nat)
    requires CodeOf(e, lens, s) && ValidLens(lens)
    ensures e.dl == lens[s] <= 15 && e.fc < Pow2(e.dl) && BitsOf(e.fc, e.dl) == SymBits(lens, s)
  {
    BitsOfRev(Code(lens, s), lens[s]);
  }

  /** send_code: sends a tree entry, the code of symbol s. */
  method SendCode(w: BitWriter, e: CtData, ghost lens: seq<nat>, ghost s: nat)
    requires w.Valid() && CodeOf(e, lens, s) && ValidLens(lens)
    modifies w
    ensures w.Valid() && w.Sent() == old(w.Sent()) + SymBits(lens, s) && w.output == old(w.output)
  {
    hide CodeOf, ValidLens, Pow2, BitsOf, SymBits;
    CodeFitsBits(e, lens, s);
    w.SendBits(e.fc, e.dl);
  }

  lemma OpsBitsPlain(cl: seq<nat>, cur: nat, k: nat)
    requires cur < 16 && HasCode(cl, cur)
    ensures HasOps(cl, seq(k, _ => Op(cur, 0))) && HasOps(cl, seq(k + 1, _ => Op(cur, 0)))
    ensures OpsBits(cl, seq(k + 1, _ => Op(cur, 0))) == OpsBits(cl, seq(k, _ => Op(cur, 0))) + SymBits(cl, cur)
  {
    hide SymBits, HasCode;
    var a := seq(k, _ => Op(cur, 0));
    assert seq(k + 1, _ => Op(cur, 0)) == a + [Op(cur, 0)];
    OpsBitsAppend(cl, a, [Op(cur, 0)]);
    OpsBitsOne(cl, Op(cur, 0));
  }

  lemma OpsBitsOne(cl: seq<nat>, op: Op)
    requires HasCode(cl, op.sym)
    ensures HasOps(cl, [op]) && OpsBits(cl, [op]) == OpBits(cl, op)
  {
    assert [op][1..] == [];
    assert OpsBits(cl, [op]) == OpBits(cl, op) + [];
  }

  lemma OpsBitsTwo(cl: seq<nat>, a: Op, b: Op)
    requires HasCode(cl, a.sym) && HasCode(cl, b.sym)
    ensures HasOps(cl, [a, b]) && OpsBits(cl, [a, b]) == OpBits(cl, a) + OpBits(cl, b)
  {
    hide OpBits;
    OpsBitsOne(cl, a);
    OpsBitsOne(cl, b);
    assert [a, b] == [a] + [b];
    OpsBitsAppend(cl, [a], [b]);
  }

  /** A repeat symbol and its extra bits. */
  method SendRepeat(w: BitWriter, sym: nat, extra: nat, blTree: array<CtData>, ghost cl: seq<nat>)
    requires w.Valid() && Coded(blTree[..], cl) && ValidLens(cl) && HasCode(cl, sym)
    requires 16 <= sym <= 18 && extra < Pow2(RepeatBits(sym))
    modifies w
    ensures w.Valid() && w.Sent() == old(w.Sent()) + OpBits(cl, Op(sym, extra)) && w.output == old(w.output)
  {
    hide Coded, ValidLens, Pow2, BitsOf, SymBits;
    CodedAt(blTree[..], cl, sym);
    SendCode(w, blTree[sym], cl, sym);
    ghost var sent := w.Sent();
    w.SendBits(extra, RepeatBits(sym));
    Assoc(old(w.Sent()), SymBits(cl, sym), BitsOf(extra, RepeatBits(sym)));
  }

  /** The same length count times. */
  method SendPlain(w: BitWriter, cur: nat, count0: nat, blTree: array<CtData>, ghost cl: seq<nat>)
    requires w.Valid() && Coded(blTree[..], cl) && ValidLens(cl) && HasCode(cl, cur) && cur < 16 && count0 >= 1
    modifies w
    ensures HasOps(cl, seq(count0, _ => Op(cur, 0)))
    ensures w.Valid() && w.Sent() == old(w.Sent()) + OpsBits(cl, seq(count0, _ => Op(cur, 0)))
    ensures w.output == old(w.output)
  {
    hide Coded, ValidLens, SymBits, OpsBits, HasOps;
    var count := count0;
    ghost var k := 0;
    OpsBitsPlain(cl, cur, 0);
    assert OpsBits(cl, seq(0, _ => Op(cur, 0))) == [] by { NoOps(cl); assert seq(0, _ => Op(cur, 0)) == []; }
    while count != 0
      invariant k + count == count0 && w.Valid() && w.output == old(w.output)
      invariant HasOps(cl, seq(k, _ => Op(cur, 0)))
      invariant w.Sent() == old(w.Sent()) + OpsBits(cl, seq(k, _ => Op(cur, 0)))
    {
      CodedAt(blTree[..], cl, cur);
      SendCode(w, blTree[cur], cl, cur);
      OpsBitsPlain(cl, cur, k);
      Assoc(old(w.Sent()), OpsBits(cl, seq(k, _ => Op(cur, 0))), SymBits(cl, cur));
      count := count - 1;
      k := k + 1;
    }
  }

  lemma NoOps(cl: seq<nat>)
    ensures HasOps(cl, []) && OpsBits(cl, []) == []
  {
  }

  /** The branches of send_tree for a run of count lengths cur. */
  method SendRun(w: BitWriter, cur: nat, prev: int, count: nat, min: nat, blTree: array<CtData>, ghost cl: seq<nat>)
    requires w.Valid() && Coded(blTree[..], cl) && ValidLens(cl) && cur < 16 && min == MinCount(prev, cur)
    requires 1 <= count <= MaxCount(prev, cur) && HasOps(cl, Emit(cur, prev, count))
    modifies w
    ensures w.Valid() && w.Sent() == old(w.Sent()) + OpsBits(cl, Emit(cur, prev, count)) && w.output == old(w.output)
  {
    hide Coded, ValidLens, SymBits, OpsBits, OpBits, Pow2;
    Powers();
    ghost var e := Emit(cur, prev, count);
    assert e[0] in e;
    if count < min {
      SendPlain(w, cur, count, blTree, cl);
    } else if cur != 0 {
      if cur != prev {
        assert e[1] in e;
        OpsBitsTwo(cl, e[0], e[1]);
        PlainOp(cl, cur);
        CodedAt(blTree[..], cl, cur);
        SendCode(w, blTree[cur], cl, cur);
        SendRepeat(w, REP_3_6, count - 4, blTree, cl);
        Assoc(old(w.Sent()), OpBits(cl, e[0]), OpBits(cl, e[1]));
      } else {
        OpsBitsOne(cl, e[0]);
        SendRepeat(w, REP_3_6, count - 3, blTree, cl);
      }
    } else if count <= 10 {
      OpsBitsOne(cl, e[0]);
      SendRepeat(w, REPZ_3_10, count - 3, blTree, cl);
    } else {
      OpsBitsOne(cl, e[0]);
      SendRepeat(w, REPZ_11_138, count - 11, blTree, cl);
    }
  }

  lemma PlainOp(cl: seq<nat>, cur: nat)
    requires cur < 16 && HasCode(cl, cur)
    ensures OpBits(cl, Op(cur, 0)) == SymBits(cl, cur)
  {
    hide SymBits;
    assert SymBits(cl, cur) + [] == SymBits(cl, cur);
  }

  lemma PartsOfOps(cl: seq<nat>, a: seq<Op>, b: seq<Op>, c: seq<Op>)
    requires HasOps(cl, a + b + c)
    ensures HasOps(cl, a) && HasOps(cl, b) && HasOps(cl, a + b)
    ensures OpsBits(cl, a + b) == OpsBits(cl, a) + OpsBits(cl, b)
  {
    hide HasCode;
    forall op | op in a
      ensures HasCode(cl, op.sym)
    {
      assert op in a + b + c;
    }
    forall op | op in b
      ensures HasCode(cl, op.sym)
    {
      assert op in a + b + c;
    }
    OpsBitsAppend(cl, a, b);
  }

  lemma ScanParts(lens: seq<nat>, n: nat, count: nat, prev: int, next: nat, max: nat, min: nat, ops: seq<Op>,
                  cl: seq<nat>)
    requires Scanning(lens, n, count, prev, next, max, min, ops) && n < |lens|
    requires !(count + 1 < max && next == NextLen(lens, n + 1)) && HasOps(cl, Ops(lens, 0, 0, -1))
    ensures var e := Emit(next, prev, count + 1);
            HasOps(cl, ops) && HasOps(cl, e) && HasOps(cl, ops + e)
                && OpsBits(cl, ops + e) == OpsBits(cl, ops) + OpsBits(cl, e)
  {
    hide HasOps, OpsBits, Emit;
    var e, rest := Emit(next, prev, count + 1), Ops(lens, n + 1, 0, next);
    assert ops + (e + rest) == ops + e + rest;
    PartsOfOps(cl, ops, e, rest);
  }

  /** send_tree: sends the lengths of one tree, with the codes of blTree. */
  method SendTree(w: BitWriter, tree: array<CtData>, maxCode: nat, blTree: array<CtData>, ghost lens: seq<nat>,
                  ghost cl: seq<nat>)
    requires w.Valid() && Coded(blTree[..], cl) && ValidLens(cl)
    requires |lens| == maxCode + 1 && Guarded(tree[..], lens) && HasOps(cl, Ops(lens, 0, 0, -1))
    modifies w
    ensures w.Valid() && w.Sent() == old(w.Sent()) + OpsBits(cl, Ops(lens, 0, 0, -1)) && w.output == old(w.output)
  {
    hide Coded, Scanning, Guarded, Emit, Ops, HasOps, OpsBits;
    ghost var ops := [];
    ghost var t := tree[..];
    GuardedSmall(t, lens);
    GuardedAt(t, lens, 0);
    var prevlen: int, nextlen: nat, count: nat := -1, tree[0].dl, 0;
    var max: nat, min: nat := 7, 4;
    if nextlen == 0 {
      max, min := 138, 3;
    }
    ScanStarts(lens);
    NoOps(cl);
    for n := 0 to maxCode + 1
      invariant w.Valid() && w.output == old(w.output)
      invariant HasOps(cl, ops) && w.Sent() == old(w.Sent()) + OpsBits(cl, ops)
      invariant Scanning(lens, n, count, prevlen, nextlen, max, min, ops)
    {
      var curlen := nextlen;
      GuardedAt(t, lens, n + 1);
      assert t[n + 1] == tree[n + 1];
      nextlen := tree[n + 1].dl;
      ScanRun(lens, n, count, prevlen, curlen, max, min, ops);
      count := count + 1;
      if count < max && curlen == nextlen {
        ScanGoesOn(lens, n, count - 1, prevlen, curlen, max, min, ops);
      } else {
        ScanParts(lens, n, count - 1, prevlen, curlen, max, min, ops, cl);
        ScanEmits(lens, n, count - 1, prevlen, curlen, max, min, ops);
        SendRun(w, curlen, prevlen, count, min, blTree, cl);
        Assoc(old(w.Sent()), OpsBits(cl, ops), OpsBits(cl, Emit(curlen, prevlen, count)));
        ops := ops + Emit(curlen, prevlen, count);
        count := 0;
        prevlen := curlen;
        if nextlen == 0 {
          max, min := 138, 3;
        } else if curlen == nextlen {
          max, min := 6, 3;
        } else {
          max, min := 7, 4;
        }
      }
    }
    ScanEnds(lens, maxCode + 1, count, prevlen, nextlen, max, min, ops);
  }

  lemma GuardedSmall(tree: seq<CtData>, lens: seq<nat>)
    requires Guarded(tree, lens)
    ensures |lens| < |tree| && forall i :: 0 <= i < |lens| ==> lens[i] < 16
  {
  }
}
