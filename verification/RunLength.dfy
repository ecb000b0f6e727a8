/**
 The run-length code of the code lengths (scan_tree and send_tree in trees.c, section 3.2.7 of
 RFC 1951): every list of lengths comes back from the symbols sent for it.
 */
module RunLength {
  import opened Shift
  import opened Bits
  import opened Canonical
  import opened InfTreesSpec
  import opened Format
  import opened FormatFacts
  import opened BlockCode

  const REP_3_6 := 16
  const REPZ_3_10 := 17
  const REPZ_11_138 := 18
  const GUARD := 0xffff

  /** A code length, or a repeat symbol with its extra bits. */
  datatype Op = Op(sym: nat, extra: nat)

  /** The longest run sent at once, for lengths cur that follow the length prev (-1: none yet). */
  function MaxCount(prev: int, cur: int): nat
  {
    if cur == 0 then 138 else if prev == cur then 6 else 7
  }

  /** A shorter run is sent length by length. */
  function MinCount(prev: int, cur: int): nat
  {
    if cur == 0 || prev == cur then 3 else 4
  }

  /** What is sent for count lengths cur in a row. */
  function Emit(cur: nat, prev: int, count: nat): seq<Op>
  {
    if count < MinCount(prev, cur) then seq(count, _ => Op(cur, 0))
    else if cur != 0 then
      if cur != prev then [Op(cur, 0), Op(REP_3_6, count - 4)] else [Op(REP_3_6, count - 3)]
    else if count <= 10 then [Op(REPZ_3_10, count - 3)]
    else [Op(REPZ_11_138, count - 11)]
  }

  function NextLen(lens: seq<nat>, n: nat): nat
  {
    if n < |lens| then lens[n] else GUARD
  }

  /** What is sent for lens[n..] when count lengths before n, all equal to lens[n], are still to be sent. */
  function Ops(lens: seq<nat>, n: nat, count: nat, prev: int): seq<Op>
    decreases |lens| - n
  {
    if n >= |lens| then []
    else if count + 1 < MaxCount(prev, lens[n]) && lens[n] == NextLen(lens, n + 1)
        then Ops(lens, n + 1, count + 1, prev)
    else Emit(lens[n], prev, count + 1) + Ops(lens, n + 1, 0, lens[n])
  }

  // ---------- reading the symbols back ----------

  /** The lengths after one more symbol, as the CODELENS state of inflate extends them. */
  function ReadOne(h: seq<nat>, op: Op): (r: seq<nat>)
    ensures h <= r
  {
    if op.sym < 16 then h + [op.sym]
    else h + Repeat(if op.sym == 16 && h != [] then h[|h| - 1] else 0, RepeatBase(op.sym) + op.extra)
  }

  function Read(h: seq<nat>, ops: seq<Op>): (r: seq<nat>)
    ensures h <= r
    decreases |ops|
  {
    if ops == [] then h else Read(ReadOne(h, ops[0]), ops[1..])
  }

  /** The extra bits hold the count, and a repeat of the previous length has one. */
  ghost predicate GoodOp(h: seq<nat>, op: Op)
  {
    && op.sym <= 18
    && (op.sym < 16 ==> op.extra == 0)
    && (op.sym >= 16 ==> op.extra < Pow2(RepeatBits(op.sym)))
    && (op.sym == 16 ==> h != [])
  }

  ghost predicate GoodOps(h: seq<nat>, ops: seq<Op>)
    decreases |ops|
  {
    ops == [] || (GoodOp(h, ops[0]) && GoodOps(ReadOne(h, ops[0]), ops[1..]))
  }

  lemma {:induction false} ReadAppend(h: seq<nat>, a: seq<Op>, b: seq<Op>)
    ensures Read(h, a + b) == Read(Read(h, a), b)
    ensures GoodOps(h, a + b) <==> GoodOps(h, a) && GoodOps(Read(h, a), b)
    decreases |a|
  {
    if a == [] {
      assert a + b == b;
    } else {
      assert (a + b)[1..] == a[1..] + b;
      ReadAppend(ReadOne(h, a[0]), a[1..], b);
    }
  }

  lemma {:induction false} ReadPlain(h: seq<nat>, cur: nat, count: nat)
    requires cur < 16
    ensures Read(h, seq(count, _ => Op(cur, 0))) == h + Repeat(cur, count)
    ensures GoodOps(h, seq(count, _ => Op(cur, 0)))
    decreases count
  {
    var ops := seq(count, _ => Op(cur, 0));
    if count == 0 {
      assert h + Repeat(cur, 0) == h;
    } else {
      ReadPlain(h + [cur], cur, count - 1);
      assert ops[1..] == seq(count - 1, _ => Op(cur, 0));
      assert h + [cur] + Repeat(cur, count - 1) == h + Repeat(cur, count);
    }
  }

  /** A length and a repeat of it. */
  lemma ReadRepeated(h: seq<nat>, cur: nat, count: nat)
    requires cur < 16 && 4 <= count <= 7
    ensures Read(h, [Op(cur, 0), Op(REP_3_6, count - 4)]) == h + Repeat(cur, count)
    ensures GoodOps(h, [Op(cur, 0), Op(REP_3_6, count - 4)])
  {
    Powers();
    var op := Op(REP_3_6, count - 4);
    assert [Op(cur, 0), op] == [Op(cur, 0)] + [op];
    ReadAppend(h, [Op(cur, 0)], [op]);
    ReadSingle(h, Op(cur, 0));
    ReadSingle(h + [cur], op);
    assert h + [cur] + Repeat(cur, count - 1) == h + Repeat(cur, count);
  }

  lemma ReadRepeat(h: seq<nat>, cur: nat, op: Op)
    requires if op.sym == 16 then h != [] && h[|h| - 1] == cur else (op.sym == 17 || op.sym == 18) && cur == 0
    requires op.extra < Pow2(RepeatBits(op.sym))
    ensures Read(h, [op]) == h + Repeat(cur, RepeatBase(op.sym) + op.extra) && GoodOps(h, [op])
  {
    ReadSingle(h, op);
  }

  /** What is sent for a run is read as the run. */
  lemma ReadEmit(h: seq<nat>, cur: nat, prev: int, count: nat)
    requires cur < 16 && 1 <= count <= MaxCount(prev, cur)
    requires prev == cur ==> h != [] && h[|h| - 1] == cur
    ensures Read(h, Emit(cur, prev, count)) == h + Repeat(cur, count)
    ensures GoodOps(h, Emit(cur, prev, count))
  {
    hide Read, GoodOps, Repeat, Pow2;
    Powers();
    if count < MinCount(prev, cur) {
      ReadPlain(h, cur, count);
    } else if cur != 0 && cur != prev {
      ReadRepeated(h, cur, count);
    } else if cur != 0 {
      ReadRepeat(h, cur, Op(REP_3_6, count - 3));
    } else if count <= 10 {
      ReadRepeat(h, cur, Op(REPZ_3_10, count - 3));
    } else {
      ReadRepeat(h, cur, Op(REPZ_11_138, count - 11));
    }
  }

  lemma ReadSingle(h: seq<nat>, op: Op)
    ensures Read(h, [op]) == ReadOne(h, op) && (GoodOps(h, [op]) <==> GoodOp(h, op))
  {
    assert [op][1..] == [];
  }

  /** The run that ends before n consists of count lengths equal to lens[n]; prev is the length before the run. */
  ghost predicate InRun(lens: seq<nat>, n: nat, count: nat, prev: int)
  {
    && count <= n <= |lens|
    && (n < |lens| ==> count < MaxCount(prev, lens[n]) && forall i :: n - count <= i < n ==> lens[i] == lens[n])
    && prev == (if n == count then -1 else lens[n - count - 1])
    && (n == |lens| ==> count == 0)
  }

  lemma RunGoesOn(lens: seq<nat>, n: nat, count: nat, prev: int)
    requires InRun(lens, n, count, prev) && n < |lens| && count + 1 < MaxCount(prev, lens[n])
    requires lens[n] == NextLen(lens, n + 1)
    requires forall i :: 0 <= i < |lens| ==> lens[i] < 16
    ensures InRun(lens, n + 1, count + 1, prev)
  {
  }

  lemma RunEnds(lens: seq<nat>, n: nat, count: nat, prev: int)
    requires InRun(lens, n, count, prev) && n < |lens|
    ensures InRun(lens, n + 1, 0, lens[n])
  {
  }

  /** The symbols sent for a list of lengths are read as that list. */
  lemma {:induction false} ReadOps(h: seq<nat>, lens: seq<nat>, n: nat, count: nat, prev: int)
    requires (forall i :: 0 <= i < |lens| ==> lens[i] < 16) && InRun(lens, n, count, prev)
    ensures Read(h + lens[..n - count], Ops(lens, n, count, prev)) == h + lens
    ensures GoodOps(h + lens[..n - count], Ops(lens, n, count, prev))
    decreases |lens| - n
  {
    hide Emit, GoodOp, Read, GoodOps, InRun;
    RunFacts(h, lens, n, count, prev);
    if n >= |lens| {
      ReadNone(h + lens);
    } else if count + 1 < MaxCount(prev, lens[n]) && lens[n] == NextLen(lens, n + 1) {
      RunGoesOn(lens, n, count, prev);
      ReadOps(h, lens, n + 1, count + 1, prev);
    } else {
      RunEnds(lens, n, count, prev);
      var h1 := h + lens[..n - count];
      ReadEmit(h1, lens[n], prev, count + 1);
      ReadOps(h, lens, n + 1, 0, lens[n]);
      ReadAppend(h1, Emit(lens[n], prev, count + 1), Ops(lens, n + 1, 0, lens[n]));
    }
  }

  lemma ReadNone(h: seq<nat>)
    ensures Read(h, []) == h && GoodOps(h, [])
  {
  }

  lemma RunFacts(h: seq<nat>, lens: seq<nat>, n: nat, count: nat, prev: int)
    requires InRun(lens, n, count, prev)
    ensures count <= n <= |lens|
    ensures n == |lens| ==> h + lens[..n - count] == h + lens
    ensures n < |lens| ==> h + lens[..n - count] + Repeat(lens[n], count + 1) == h + lens[..n + 1]
    ensures n < |lens| ==> count + 1 <= MaxCount(prev, lens[n])
    ensures n < |lens| && prev == lens[n] ==> n > count && (h + lens[..n - count])[|h| + n - count - 1] == lens[n]
  {
  }

  /** All of it: whatever precedes, the list comes back. */
  lemma ReadAll(h: seq<nat>, lens: seq<nat>)
    requires forall i :: 0 <= i < |lens| ==> lens[i] < 16
    ensures Read(h, Ops(lens, 0, 0, -1)) == h + lens && GoodOps(h, Ops(lens, 0, 0, -1))
  {
    assert h + lens[..0] == h;
    ReadOps(h, lens, 0, 0, -1);
  }

  // ---------- the bits of the symbols ----------

  function OpBits(cl: seq<nat>, op: Op): (b: Bits)
    requires op.sym < |cl|
  {
    SymBits(cl, op.sym) + if op.sym < 16 then [] else BitsOf(op.extra, RepeatBits(op.sym))
  }

  ghost predicate HasOps(cl: seq<nat>, ops: seq<Op>)
  {
    forall op :: op in ops ==> HasCode(cl, op.sym)
  }

  ghost function OpsBits(cl: seq<nat>, ops: seq<Op>): (b: Bits)
    requires HasOps(cl, ops)
    decreases |ops|
  {
    if ops == [] then [] else OpBits(cl, ops[0]) + OpsBits(cl, ops[1..])
  }

  lemma {:induction false} OpsBitsAppend(cl: seq<nat>, a: seq<Op>, b: seq<Op>)
    requires HasOps(cl, a) && HasOps(cl, b)
    ensures HasOps(cl, a + b) && OpsBits(cl, a + b) == OpsBits(cl, a) + OpsBits(cl, b)
    decreases |a|
  {
    if a == [] {
      assert a + b == b;
    } else {
      assert (a + b)[1..] == a[1..] + b;
      OpsBitsAppend(cl, a[1..], b);
    }
  }

  lemma ReadOpBits(B: Bits, a: State, op: Op)
    requires GoodState(a) && a.mode.CodeLens? && GoodOp(a.mode.lens, op) && HasCode(a.mode.cl, op.sym)
    requires |ReadOne(a.mode.lens, op)| <= a.mode.nlen + a.mode.ndist && |a.mode.lens| < a.mode.nlen + a.mode.ndist
    requires At(B, a.pos, OpBits(a.mode.cl, op))
    ensures Next(B, a) == Some(a.(mode := a.mode.(lens := ReadOne(a.mode.lens, op)),
             pos := a.pos + |OpBits(a.mode.cl, op)|))
  {
    hide SymBits, At, Acceptable, Decode, Num, Complete;
    var m := a.mode;
    AtSplit(B, a.pos, SymBits(m.cl, op.sym), if op.sym < 16 then [] else BitsOf(op.extra, RepeatBits(op.sym)));
    assert ValidLens(m.cl);
    ReadSymbol(B, a.pos, CODES, m.cl, op.sym);
    if op.sym >= 16 {
      NumOf(B, a.pos + m.cl[op.sym], op.extra, RepeatBits(op.sym));
    }
  }

  /** The sent lengths, read by the machine. */
  lemma {:induction false} ReadOpsBits(B: Bits, a: State, ops: seq<Op>)
    requires GoodState(a) && a.mode.CodeLens? && GoodOps(a.mode.lens, ops) && HasOps(a.mode.cl, ops)
    requires |Read(a.mode.lens, ops)| == a.mode.nlen + a.mode.ndist
    requires At(B, a.pos, OpsBits(a.mode.cl, ops))
    ensures Reach(B, a, a.(mode := a.mode.(lens := Read(a.mode.lens, ops)), pos := a.pos + |OpsBits(a.mode.cl, ops)|))
    decreases |ops|
  {
    hide At, Next, GoodOp, ReadOne, OpBits, GoodState, Reach;
    if ops == [] {
      ReachSelf(B, a);
    } else {
      var m := a.mode;
      AtSplit(B, a.pos, OpBits(m.cl, ops[0]), OpsBits(m.cl, ops[1..]));
      ReadOneGrows(m.lens, ops[0]);
      ReadOpBits(B, a, ops[0]);
      var a1 := a.(mode := m.(lens := ReadOne(m.lens, ops[0])), pos := a.pos + |OpBits(m.cl, ops[0])|);
      NextGood(B, a, a1);
      ReachNext(B, a, a1);
      ReadOpsBits(B, a1, ops[1..]);
      ReachTrans(B, a, a1, a.(mode := m.(lens := Read(m.lens, ops)), pos := a.pos + |OpsBits(m.cl, ops)|));
    }
  }

  lemma ReadOneGrows(h: seq<nat>, op: Op)
    ensures |h| < |ReadOne(h, op)|
  {
  }

  // ---------- counting the symbols ----------

  function Syms(ops: seq<Op>): (r: seq<nat>)
    ensures |r| == |ops|
  {
    seq(|ops|, i requires 0 <= i < |ops| => ops[i].sym)
  }

  lemma {:induction false} OpsSymbols(lens: seq<nat>, n: nat, count: nat, prev: int)
    requires forall i :: 0 <= i < |lens| ==> lens[i] < 16
    ensures forall op :: op in Ops(lens, n, count, prev) ==> op.sym <= 18
    decreases |lens| - n
  {
    if n < |lens| {
      OpsSymbols(lens, n + 1, count + 1, prev);
      OpsSymbols(lens, n + 1, 0, lens[n]);
    }
  }
}
