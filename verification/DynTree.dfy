/** gen_codes, bi_reverse and build_tree (trees.c): from frequencies to codes. */
module DynTree {
  import opened Shift
  import opened Bits
  import opened Canonical
  import opened Huffman
  import opened Forest
  import opened Heap
  import opened HuffmanQueue
  import opened TreeDepth
  import opened BitLengths

  // ---------- codes ----------

  lemma {:induction false} RevSnoc(v: nat, i: nat)
    ensures Rev(v, i + 1) == 2 * Rev(v, i) + Shr(v, i) % 2
  {
    if i == 0 {
      assert Rev(v, 1) == (if v % 2 == 1 then Pow2(0) else 0) + Rev(v / 2, 0);
    } else {
      RevSnoc(v / 2, i - 1);
    }
  }

  /** The low len0 bits of code0 in reverse order. */
  method BiReverse(code0: nat, len0: nat) returns (res: nat)
    requires len0 >= 1
    ensures res == Rev(code0, len0)
  {
    var code, len := code0, len0;
    res := 0;
    while true
      invariant 1 <= len <= len0 && code == Shr(code0, len0 - len) && res == 2 * Rev(code0, len0 - len)
      decreases len
    {
      RevSnoc(code0, len0 - len);
      ShrShr(code0, len0 - len, 1);
      res := res + code % 2;   // res is even here, so the | is a +
      code := code / 2;
      res := 2 * res;
      len := len - 1;
      if len == 0 {
        break;
      }
    }
    res := res / 2;
  }

  function Lens(tree: seq<CtData>, n: nat): (lens: seq<nat>)
    requires n <= |tree|
    ensures |lens| == n && forall i :: 0 <= i < n ==> lens[i] == tree[i].dl
  {
    seq(n, i requires 0 <= i < n => tree[i].dl)
  }

  /** Every symbol with a length has its canonical code, stored backwards. */
  ghost predicate Coded(t: seq<CtData>, lens: seq<nat>)
  {
    |lens| <= |t| && forall s: nat :: s < |lens| ==>
        t[s].dl == lens[s] && (lens[s] > 0 ==> t[s].fc == Reversed(lens, s))
  }

  lemma FirstCode(bl: seq<nat>, lens: seq<nat>, bits: nat)
    requires BlCounts(bl, lens) && NotOver(lens) && 1 <= bits <= MAX_BITS
    ensures 2 * ((if bits == 1 then 0 else NextCode(lens, bits - 1)) + bl[bits - 1]) == NextCode(lens, bits) < 0x10000
  {
    UsedFits(lens, bits);
    Pow2Monotone(bits, 15);
  }

  /** The first code of each length. */
  method FirstCodes(blCount: array<nat>, ghost lens: seq<nat>) returns (next: array<nat>)
    requires BlCounts(blCount[..], lens) && NotOver(lens)
    ensures fresh(next) && next.Length == MAX_BITS + 1 && NextOf(next[..], lens, 0)
  {
    hide BlCounts, NextCode, NotOver;
    ghost var bl := blCount[..];
    next := new nat[MAX_BITS + 1](_ => 0);
    var code := 0;
    assert blCount.Length == MAX_BITS + 1 by { BlLength(bl, lens); }
    for bits := 1 to MAX_BITS + 1
      invariant blCount[..] == bl
      invariant code == if bits == 1 then 0 else NextCode(lens, bits - 1)
      invariant forall l :: 1 <= l < bits ==> next[l] == NextCode(lens, l)
    {
      FirstCode(bl, lens, bits);
      assert bl[bits - 1] == blCount[bits - 1];
      code := 2 * (code + blCount[bits - 1]);
      next[bits] := code;
    }
  }

  lemma BlLength(bl: seq<nat>, lens: seq<nat>)
    requires BlCounts(bl, lens)
    ensures |bl| == MAX_BITS + 1
  {
  }

  /** The next code of each length when the first n symbols have theirs. */
  ghost predicate NextOf(next: seq<nat>, lens: seq<nat>, n: nat)
  {
    && |next| == MAX_BITS + 1 && n <= |lens|
    && forall l :: 1 <= l <= MAX_BITS ==> next[l] == NextCode(lens, l) + Count(lens[..n], l)
  }

  /** The first n symbols have their codes, the rest of the tree is as in t0. */
  ghost predicate CodedUpTo(t0: seq<CtData>, t: seq<CtData>, lens: seq<nat>, n: nat)
  {
    && |t| == |t0| && n <= |lens| <= |t0|
    && (forall s :: 0 <= s < |lens| ==> t0[s].dl == lens[s])
    && forall s :: 0 <= s < |t0| ==>
         t[s] == if s < n && lens[s] > 0 then CtData(Reversed(lens, s), lens[s]) else t0[s]
  }

  lemma NextStep(next: seq<nat>, lens: seq<nat>, n: nat)
    requires NextOf(next, lens, n) && n < |lens| && lens[n] <= MAX_BITS
    ensures lens[n] == 0 ==> NextOf(next, lens, n + 1)
    ensures lens[n] > 0 ==> next[lens[n]] == Code(lens, n) && NextOf(next[lens[n] := next[lens[n]] + 1], lens, n + 1)
  {
    assert lens[..n + 1] == lens[..n] + [lens[n]];
    forall l | 1 <= l <= MAX_BITS
      ensures Count(lens[..n + 1], l) == Count(lens[..n], l) + if lens[n] == l then 1 else 0
    {
      CountAppend(lens[..n], [lens[n]], l);
      assert Count([lens[n]], l) == Count([], l) + if lens[n] == l then 1 else 0;
    }
  }

  lemma CodedStep(t0: seq<CtData>, t: seq<CtData>, lens: seq<nat>, n: nat)
    requires CodedUpTo(t0, t, lens, n) && n < |lens|
    ensures n < |t| && t[n].dl == lens[n]
    ensures CodedUpTo(t0, if lens[n] > 0 then t[n := t[n].(fc := Reversed(lens, n))] else t, lens, n + 1)
  {
  }

  /** gen_codes: gives every symbol up to maxCode that has a length its code. */
  method GenCodes(tree: array<CtData>, maxCode: nat, blCount: array<nat>, ghost lens: seq<nat>)
    requires maxCode < tree.Length && lens == Lens(tree[..], maxCode + 1)
    requires ValidLens(lens) && NotOver(lens) && BlCounts(blCount[..], lens)
    modifies tree
    ensures CodedUpTo(old(tree[..]), tree[..], lens, |lens|)
  {
    var next := FirstCodes(blCount, lens);
    ghost var t0 := tree[..];
    for n := 0 to maxCode + 1
      invariant next.Length == MAX_BITS + 1 && NextOf(next[..], lens, n) && CodedUpTo(t0, tree[..], lens, n)
    {
      hide NextOf, CodedUpTo, Code, Rev;
      NextStep(next[..], lens, n);
      CodedStep(t0, tree[..], lens, n);
      var len := tree[n].dl;
      if len != 0 {
        var code := BiReverse(next[len], len);
        Increment(next, len);
        SetCode(tree, n, code);
      }
    }
  }

  method Increment(next: array<nat>, len: nat)
    requires len < next.Length
    modifies next
    ensures next[..] == old(next[..])[len := old(next[len]) + 1]
  {
    next[len] := next[len] + 1;
  }

  method SetCode(tree: array<CtData>, n: nat, code: nat)
    requires n < tree.Length
    modifies tree
    ensures tree[..] == old(tree[..])[n := old(tree[n]).(fc := code)]
  {
    tree[n] := tree[n].(fc := code);
  }

  // ---------- build_tree ----------

  /** The description of a tree (tree_desc): its size, its longest code, extra bits, and static lengths or none. */
  datatype Desc = Desc(elems: nat, maxLength: nat, extra: seq<nat>, base: nat, slens: seq<nat>)

  ghost predicate ValidDesc(d: Desc, xb: seq<nat>)
  {
    && 3 <= d.elems && 2 * d.elems < HEAP_SIZE && 1 <= d.maxLength <= MAX_BITS && d.elems <= Pow2(d.maxLength)
    && |xb| == d.elems && XBitsOf(d.extra, d.base, xb) && xb[0] == xb[1] == xb[2] == 0
    && (d.slens == [] || |d.slens| >= d.elems)
  }

  /**
   The code built for the frequencies freqs: complete, no longer than allowed, and with a code for every symbol that
   occurs.
   */
  ghost predicate Built(freqs: seq<nat>, t: seq<CtData>, d: Desc, maxCode: nat, lens: seq<nat>)
  {
    && |freqs| == d.elems <= |t| && maxCode < d.elems && |lens| == maxCode + 1
    && (forall s :: 0 <= s < |lens| ==> lens[s] <= d.maxLength)
    && Complete(lens) && lens[maxCode] > 0
    && Coded(t, lens) && (forall s :: |lens| <= s < d.elems ==> t[s].dl == 0)
    && (forall s :: 0 <= s < d.elems && freqs[s] > 0 ==> s <= maxCode && lens[s] > 0)
  }

  /** Sizes of the arrays build_tree works on. */
  ghost predicate Room(tree: array<CtData>, heap: array<nat>, depth: array<nat>, blCount: array<nat>, d: Desc)
  {
    && heap != depth && heap != blCount && depth != blCount
    && heap.Length == HEAP_SIZE && depth.Length == HEAP_SIZE && blCount.Length == MAX_BITS + 1
    && 2 * d.elems < tree.Length <= HEAP_SIZE
  }

  /** The first elems frequencies. */
  function FirstFreqs(tree: seq<CtData>, n: nat): (f: seq<nat>)
    requires n <= |tree|
    ensures |f| == n && forall i :: 0 <= i < n ==> f[i] == tree[i].fc
  {
    seq(n, i requires 0 <= i < n => tree[i].fc)
  }

  /** The total of the first n. */
  function Total(f: seq<nat>, n: nat): nat
    requires n <= |f|
  {
    if n == 0 then 0 else Total(f, n - 1) + f[n - 1]
  }

  // the weight of the leaves, forced ones included, stays below 2^16
  lemma {:induction false} MassIsTotal(act: set<nat>, w: seq<nat>, f: seq<nat>, n: nat)
    requires n <= |w| && (forall x: nat :: x < n && x in act ==> x < |f| && w[x] <= f[x] + (if x < 3 then 1 else 0))
    ensures n <= |f| ==> Cost(act, w, seq(|w|, _ => 1), n) <= Total(f, n) + (if n < 3 then n else 3)
    ensures n >= |f| ==> Cost(act, w, seq(|w|, _ => 1), n) <= Total(f, |f|) + 3
  {
    if n > 0 {
      MassIsTotal(act, w, f, n - 1);
    }
  }

  // ---------- the forced codes cost nothing ----------

  lemma Halves(top: nat, m: nat, n: nat)
    requires 1 <= m <= top && 1 <= n <= top && Pow2(top - m) + Pow2(top - n) == Pow2(top)
    ensures m == n == 1
  {
    Pow2Monotone(top - m, top - 1);
    Pow2Monotone(top - n, top - 1);
    if m > 1 {
      Pow2Monotone(top - m, top - 2);
    }
    if n > 1 {
      Pow2Monotone(top - n, top - 2);
    }
  }

  /** Two codes that fill the room have one bit each. */
  lemma TwoCodes(e: nat, leaves: set<nat>, lens: seq<nat>, a: nat, b: nat)
    requires leaves == {a, b} && a != b && |lens| == e && a < e && b < e && Complete(lens)
    requires forall s :: 0 <= s < e ==> lens[s] <= MAX_BITS && (lens[s] > 0 <==> s in leaves)
    ensures lens[a] == lens[b] == 1
  {
    hide Kraft, Used, Pow2;
    Forest.UsedIsKraft(e, leaves, lens, lens, MAX_BITS, e);
    assert lens[..e] == lens;
    KraftSplit(leaves, lens, MAX_BITS, e, a);
    KraftSplit(leaves - {a}, lens, MAX_BITS, e, b);
    assert leaves - {a} - {b} == {};
    KraftNone(lens, MAX_BITS, e);
    Halves(MAX_BITS, lens[a], lens[b]);
  }

  /** The forced symbols below n. */
  ghost function OffBelow(off: seq<nat>, act0: set<nat>, act: set<nat>, n: nat): nat
    requires |off| >= 3
  {
    (if n > 0 && 0 in act && 0 !in act0 then off[0] else 0) + (if n > 1 && 1 in act && 1 !in act0 then off[1] else 0)
    + (if n > 2 && 2 in act && 2 !in act0 then off[2] else 0)
  }

  /** w differs from f by the frequency 1 of the forced symbols, which have one-bit codes and no extra bits. */
  ghost predicate ForcedBy(f: seq<nat>, w: seq<nat>, lens: seq<nat>, xb: seq<nat>, act0: set<nat>, act: set<nat>)
  {
    && |f| <= |w| && |f| == |lens| == |xb|
    && forall s: nat :: s < |f| ==>
         if s in act && s !in act0 then s < 3 && f[s] == 0 && w[s] == 1 && lens[s] == 1 && xb[s] == 0 else w[s] == f[s]
  }

  lemma {:induction false} ForcedBits(f: seq<nat>, w: seq<nat>, lens: seq<nat>, xb: seq<nat>, act0: set<nat>,
                                      act: set<nat>, n: nat)
    requires ForcedBy(f, w, lens, xb, act0, act) && n <= |f|
    ensures BitsTotal(w, lens, xb, n) == BitsTotal(f, lens, xb, n) + OffBelow([1, 1, 1], act0, act, n)
  {
    if n > 0 {
      ForcedBits(f, w, lens, xb, act0, act, n - 1);
    }
  }

  lemma {:induction false} ForcedStatic(f: seq<nat>, w: seq<nat>, lens: seq<nat>, slens: seq<nat>, xb: seq<nat>,
                                        act0: set<nat>, act: set<nat>, n: nat)
    requires ForcedBy(f, w, lens, xb, act0, act) && n <= |f| <= |slens| && |slens| >= 3
    ensures StaticTotal(w, lens, slens, xb, n) == StaticTotal(f, lens, slens, xb, n) + OffBelow(slens, act0, act, n)
  {
    if n > 0 {
      ForcedStatic(f, w, lens, slens, xb, act0, act, n - 1);
    }
  }

  /** So the counters grow by exactly the bits of the symbols that do occur. */
  lemma ForcedFree(at0: Sums, at1: Sums, at2: Sums, f: seq<nat>, w: seq<nat>, lens: seq<nat>, d: Desc, xb: seq<nat>,
                   act0: set<nat>, act: set<nat>)
    requires ValidDesc(d, xb) && |f| == d.elems && ForcedBy(f, w, lens, xb, act0, act)
    requires at1.opt == at0.opt - StaticOff([1, 1, 1], act0, act)
    requires at1.stat == at0.stat - if d.slens == [] then 0 else StaticOff(d.slens, act0, act)
    requires Added(at1, at2, w, lens, d.slens, xb, d.elems)
    ensures Added(at0, at2, f, lens, d.slens, xb, d.elems)
  {
    ForcedBits(f, w, lens, xb, act0, act, d.elems);
    if d.slens != [] {
      ForcedStatic(f, w, lens, d.slens, xb, act0, act, d.elems);
    }
  }

  // ---------- symbols beyond the largest code ----------

  lemma {:induction false} UsedPrefix(lens: seq<nat>, k: nat, m: nat)
    requires k <= |lens| && forall i :: k <= i < |lens| ==> lens[i] == 0
    ensures Used(lens[..k], m) == Used(lens, m) && (m > 0 ==> Count(lens[..k], m) == Count(lens, m))
  {
    if m > 0 {
      UsedPrefix(lens, k, m - 1);
      assert lens == lens[..k] + lens[k..];
      CountAppend(lens[..k], lens[k..], m);
      CountZero(lens[k..], m);
    }
  }

  lemma Trimmed(bl: seq<nat>, lens: seq<nat>, k: nat)
    requires k <= |lens| && (forall i :: k <= i < |lens| ==> lens[i] == 0) && BlCounts(bl, lens) && Complete(lens)
    ensures BlCounts(bl, lens[..k]) && Complete(lens[..k])
  {
    UsedPrefix(lens, k, MAX_BITS);
    forall b | 1 <= b <= MAX_BITS
      ensures Count(lens[..k], b) == Count(lens, b)
    {
      UsedPrefix(lens, k, b);
    }
  }

  lemma {:induction false} BitsTotalTrim(f: seq<nat>, lens: seq<nat>, xb: seq<nat>, k: nat, n: nat)
    requires k <= n <= |f| && n <= |lens| && n <= |xb| && forall i :: k <= i < n ==> lens[i] == 0
    ensures BitsTotal(f, lens, xb, n) == BitsTotal(f, lens[..k], xb, k)
  {
    if n > k {
      BitsTotalTrim(f, lens, xb, k, n - 1);
    } else {
      BitsTotalSame(f, lens, lens[..k], xb, k);
    }
  }

  lemma {:induction false} StaticTotalTrim(f: seq<nat>, lens: seq<nat>, slens: seq<nat>, xb: seq<nat>, k: nat, n: nat)
    requires k <= n <= |f| && n <= |lens| && n <= |xb| && n <= |slens| && forall i :: k <= i < n ==> lens[i] == 0
    ensures StaticTotal(f, lens, slens, xb, n) == StaticTotal(f, lens[..k], slens, xb, k)
  {
    if n > k {
      StaticTotalTrim(f, lens, slens, xb, k, n - 1);
    } else {
      StaticTotalSame(f, lens, lens[..k], slens, xb, k);
    }
  }

  // ---------- the queue at the start ----------

  /** The tree array when the queue is ready: forced symbols have frequency 1, symbols without a code length 0. */
  ghost predicate Prepared(t0: seq<CtData>, t: seq<CtData>, e: nat, act0: set<nat>, act: set<nat>, maxCode: nat)
  {
    && |t0| == |t| && e <= |t| && maxCode < e && IsMax(act, maxCode) && act0 == Occurring(t0, e) && act0 <= act
    && (forall x :: x in act ==> x < e) && (forall x :: x in act && x !in act0 ==> x < 3)
    && (forall s: nat :: s < e ==> t[s].fc == if s in act && s !in act0 then 1 else t0[s].fc)
    && (forall s: nat :: s < e && s !in act ==> t[s].dl == 0)
    && (act0 != act ==> |act| == 2)
  }

  lemma PreparedIs(t0: seq<CtData>, t1: seq<CtData>, t: seq<CtData>, e: nat, act0: set<nat>, act: set<nat>,
                   maxCode: nat)
    requires |t0| == |t| && 3 <= e <= |t0| && maxCode < e && IsMax(act, maxCode) && act0 == Occurring(t0, e)
    requires Marked(t0, t1, e, e) && Forced(t1, t, e, act0, act) && (act0 != act ==> |act| == 2)
    ensures Prepared(t0, t, e, act0, act, maxCode)
  {
  }

  lemma PreparedMass(t0: seq<CtData>, t: seq<CtData>, e: nat, act0: set<nat>, act: set<nat>, maxCode: nat)
    requires Prepared(t0, t, e, act0, act, maxCode) && Total(FirstFreqs(t0, e), e) < 0x10000 - 3
    ensures Mass(act, Freqs(t)) < 0x10000
  {
    MassIsTotal(act, Freqs(t), FirstFreqs(t0, e), |t|);
  }

  lemma QueueFacts(h: seq<nat>, len: nat, tree: seq<CtData>, depth: seq<nat>, act: set<nat>, max: int)
    requires Queue(h, len, tree, depth, act, max)
    ensures Nodes(h, len, tree, depth) && Elements(h, len) == multiset(act) && |act| == len && IsMax(act, max)
  {
  }

  lemma NoneForced(act0: set<nat>, act: set<nat>, elems: nat, t0: seq<CtData>, t1: seq<CtData>)
    requires Forced(t0, t1, elems, act0, act) && |act| == |act0|
    ensures act == act0
  {
    assert act == act0 + (act - act0);
  }

  /** Enters the symbols, forces two codes if there are fewer, and orders the heap. */
  method PrepareQueue(tree: array<CtData>, heap: array<nat>, depth: array<nat>, d: Desc, sums0: Sums,
                      ghost xb: seq<nat>)
    returns (len: nat, maxCode: nat, sums: Sums, ghost act0: set<nat>, ghost act: set<nat>)
    requires heap != depth && heap.Length == HEAP_SIZE == depth.Length && 2 * d.elems < tree.Length <= HEAP_SIZE
    requires ValidDesc(d, xb) && Total(FirstFreqs(tree[..], d.elems), d.elems) < 0x10000 - 3
    modifies tree, heap, depth
    ensures Ready(heap[..], len, tree[..], depth[..], d.elems, act)
    ensures Prepared(old(tree[..]), tree[..], d.elems, act0, act, maxCode)
    ensures sums.opt == sums0.opt - StaticOff([1, 1, 1], act0, act)
    ensures sums.stat == sums0.stat - if d.slens == [] then 0 else StaticOff(d.slens, act0, act)
  {
    hide Queue, Marked, Forced, ForcedSymbols, StaticOff, Elements, IsMax, Prepared, Mass, Freqs, Total, Heap.Ordered,
         Smaller;
    ghost var t0 := tree[..];
    act0 := Occurring(t0, d.elems);
    var len0, max0 := FillQueue(tree, heap, depth, d.elems);
    ghost var t1 := tree[..];
    QueueFacts(heap[..], len0, t1, depth[..], act0, max0);
    var max, forced, staticOff;
    len, max, forced, staticOff, act := ForceCodes(tree, heap, depth, d.elems, len0, max0, d.slens, act0);
    maxCode := max;
    QueueFacts(heap[..], len, tree[..], depth[..], act, max);
    if len == len0 {
      NoneForced(act0, act, d.elems, t1, tree[..]);
    }
    PreparedIs(t0, t1, tree[..], d.elems, act0, act, maxCode);
    sums := Sums(sums0.opt - forced, sums0.stat - staticOff);
    MakeHeap(heap, len, tree, depth);
    PreparedMass(t0, tree[..], d.elems, act0, act, maxCode);
    LeavesBelow(t0, tree[..], d.elems, act0, act, maxCode);
  }

  lemma LeavesBelow(t0: seq<CtData>, t: seq<CtData>, e: nat, act0: set<nat>, act: set<nat>, maxCode: nat)
    requires Prepared(t0, t, e, act0, act, maxCode)
    ensures forall x :: x in act ==> x < e
  {
  }

  // ---------- the result ----------

  /** The symbols that occur, as the first elems frequencies say. */
  ghost function Occurs(f: seq<nat>): set<nat>
  {
    set s: nat | s < |f| && f[s] > 0
  }

  lemma {:induction false} CostTrim(act: set<nat>, w: seq<nat>, l: seq<nat>, w1: seq<nat>, l1: seq<nat>, k: nat, n: nat)
    requires k <= n <= |w| && n <= |l| && k <= |w1| && k <= |l1| && forall x :: x in act ==> x < k
    requires forall x :: x in act ==> w1[x] == w[x] && l1[x] == l[x]
    ensures Cost(act, w, l, n) == Cost(act, w1, l1, k)
  {
    if n > k {
      CostTrim(act, w, l, w1, l1, k, n - 1);
    } else {
      CostSame(act, act, w, w1, l, l1, k);
    }
  }

  lemma {:induction false} KraftTrim(act: set<nat>, l: seq<nat>, l1: seq<nat>, top: nat, k: nat, n: nat)
    requires k <= n <= |l| && k <= |l1| && (forall x :: x in act ==> x < k && l1[x] == l[x])
    ensures Kraft(act, l, top, n) == Kraft(act, l1, top, k)
  {
    if n > k {
      KraftTrim(act, l, l1, top, k, n - 1);
    } else {
      KraftSame(act, act, l, l1, top, k);
    }
  }

  /** A bound over the whole node array is a bound over the symbols. */
  lemma BoundTrim(act: set<nat>, w: seq<nat>, f: seq<nat>, b: int)
    requires |f| <= |w| && (forall x :: x in act ==> x < |f| && f[x] == w[x]) && LowerBound(act, w, b)
    ensures LowerBound(act, f, b)
  {
    forall l: seq<nat>, top: nat | |l| == |f| && Admissible(act, l, top)
      ensures Cost(act, f, l, |f|) >= b
    {
      var l1 := l + Zeros(|w| - |f|);
      KraftTrim(act, l1, l, top, |f|, |l1|);
      CostTrim(act, w, l1, f, l, |f|, |w|);
      assert Admissible(act, l1, top);
    }
  }

  /** No prefix code for the symbols that occur takes fewer bits. */
  ghost predicate Cheapest(f: seq<nat>, lens: seq<nat>)
  {
    |lens| <= |f| && (forall x :: x in Occurs(f) ==> x < |lens|)
        && LowerBound(Occurs(f), f, Cost(Occurs(f), f, lens, |lens|))
  }

  /** A more frequent symbol never has the longer code. */
  ghost predicate FairCodes(f: seq<nat>, lens: seq<nat>)
  {
    forall x: nat, y: nat :: x < |lens| && y < |lens| && x < |f| && y < |f| && 0 < f[x] < f[y] ==> lens[x] >= lens[y]
  }

  /** The counters before and after: each symbol that occurs adds its frequency times its code and extra bits. */
  ghost predicate Counted(at0: Sums, at1: Sums, f: seq<nat>, lens: seq<nat>, d: Desc, xb: seq<nat>)
  {
    && |lens| <= |f| && |lens| <= |xb| && (d.slens != [] ==> |lens| <= |d.slens|)
    && at1.opt == at0.opt + BitsTotal(f, lens, xb, |lens|)
    && at1.stat == at0.stat + if d.slens == [] then 0 else StaticTotal(f, lens, d.slens, xb, |lens|)
  }

  lemma ForcedIs(t0: seq<CtData>, t: seq<CtData>, e: nat, act0: set<nat>, act: set<nat>, maxCode: nat, w: seq<nat>,
                 lens: seq<nat>, d: Desc, xb: seq<nat>)
    requires Prepared(t0, t, e, act0, act, maxCode) && ValidDesc(d, xb) && d.elems == e && |lens| == e <= |w|
    requires Complete(lens)
    requires forall s: nat :: s < e ==> lens[s] <= d.maxLength && (lens[s] > 0 <==> s in act) && w[s] == t[s].fc
    ensures ForcedBy(FirstFreqs(t0, e), w, lens, xb, act0, act)
  {
    var f := FirstFreqs(t0, e);
    forall s: nat | s < e && s in act && s !in act0
      ensures s < 3 && f[s] == 0 && w[s] == 1 && lens[s] == 1 && xb[s] == 0
    {
      assert |act - {s}| == 1;
      var o :| o in act - {s};
      assert act - {s} == {o} by {
        CardOne(act - {s}, o);
      }
      assert act == (act - {s}) + {s} == {s, o};
      TwoCodes(e, act, lens, s, o);
    }
  }

  lemma CardOne(s: set<nat>, o: nat)
    requires |s| == 1 && o in s
    ensures s == {o}
  {
    assert |s - {o}| == 0;
  }

  /** What the lengths of all symbols say about the code that is used, the lengths up to maxCode. */
  lemma Conclude(t0: seq<CtData>, t: seq<CtData>, t1: seq<CtData>, act0: set<nat>, act: set<nat>, maxCode: nat,
                 w: seq<nat>, lens: seq<nat>, d: Desc, xb: seq<nat>, at0: Sums, at1: Sums, at2: Sums)
    requires ValidDesc(d, xb) && Prepared(t0, t, d.elems, act0, act, maxCode) && |lens| == d.elems <= |w|
    requires CodeLengths(t1, d.elems, act, lens, d.maxLength) && Complete(lens)
    requires forall s: nat :: s < d.elems ==> w[s] == t[s].fc
    requires at1.opt == at0.opt - StaticOff([1, 1, 1], act0, act)
    requires at1.stat == at0.stat - if d.slens == [] then 0 else StaticOff(d.slens, act0, act)
    requires Added(at1, at2, w, lens, d.slens, xb, d.elems)
    ensures maxCode + 1 <= d.elems && forall i :: maxCode + 1 <= i < |lens| ==> lens[i] == 0
    ensures Counted(at0, at2, FirstFreqs(t0, d.elems), lens[..maxCode + 1], d, xb)
  {
    var f, k := FirstFreqs(t0, d.elems), maxCode + 1;
    ForcedIs(t0, t, d.elems, act0, act, maxCode, w, lens, d, xb);
    ForcedFree(at0, at1, at2, f, w, lens, d, xb, act0, act);
    BitsTotalTrim(f, lens, xb, k, d.elems);
    if d.slens != [] {
      StaticTotalTrim(f, lens, d.slens, xb, k, d.elems);
    }
  }

  /** The codes assigned. */
  lemma BuiltIs(t0: seq<CtData>, t: seq<CtData>, t1: seq<CtData>, t2: seq<CtData>, act0: set<nat>, act: set<nat>,
                maxCode: nat, lens: seq<nat>, d: Desc, xb: seq<nat>, bl: seq<nat>)
    requires ValidDesc(d, xb) && Prepared(t0, t, d.elems, act0, act, maxCode) && |lens| == d.elems
    requires CodeLengths(t1, d.elems, act, lens, d.maxLength) && Complete(lens) && BlCounts(bl, lens)
    requires forall i :: maxCode + 1 <= i < |lens| ==> lens[i] == 0
    requires maxCode + 1 <= d.elems && CodedUpTo(t1, t2, lens[..maxCode + 1], maxCode + 1)
    requires maxCode in act && d.elems <= |t0|
    ensures Built(FirstFreqs(t0, d.elems), t2, d, maxCode, lens[..maxCode + 1])
  {
    hide Complete, Used, Count, Reversed, ValidDesc;
    Trimmed(bl, lens, maxCode + 1);
    var lens1 := lens[..maxCode + 1];
    forall s: nat | s < |lens1|
      ensures t2[s].dl == lens1[s] && (lens1[s] > 0 ==> t2[s].fc == Reversed(lens1, s))
    {
      assert t1[s].dl == lens1[s];
    }
  }

  /** If nothing had to be forced or repaired, no prefix code is cheaper. */
  lemma CheapestIs(t0: seq<CtData>, t: seq<CtData>, act0: set<nat>, act: set<nat>, maxCode: nat, w: seq<nat>,
                   lens: seq<nat>, e: nat)
    requires Prepared(t0, t, e, act0, act, maxCode) && act == act0 && |lens| == e <= |w|
    requires forall s: nat :: s < e ==> w[s] == t[s].fc
    requires LowerBound(act, w, Cost(act, w, lens, e))
    ensures maxCode + 1 <= e && Cheapest(FirstFreqs(t0, e), lens[..maxCode + 1])
  {
    var f := FirstFreqs(t0, e);
    assert Occurs(f) == act;
    BoundTrim(act, w, f, Cost(act, w, lens, e));
    CostTrim(act, w, lens, f, lens[..maxCode + 1], maxCode + 1, e);
  }

  lemma FairIs(t0: seq<CtData>, t: seq<CtData>, act0: set<nat>, act: set<nat>, maxCode: nat, w: seq<nat>,
               lens: seq<nat>, e: nat)
    requires Prepared(t0, t, e, act0, act, maxCode) && |lens| == e <= |w| && Fair(act, w, lens)
    requires forall s: nat :: s < e ==> w[s] == t[s].fc
    ensures maxCode + 1 <= e && FairCodes(FirstFreqs(t0, e), lens[..maxCode + 1])
  {
  }

  lemma AfterJoin(t0: seq<CtData>, t: seq<CtData>, t1: seq<CtData>, e: nat, act0: set<nat>, act: set<nat>, maxCode: nat)
    requires Prepared(t0, t, e, act0, act, maxCode) && SymbolsKept(t, t1, e, act)
    ensures maxCode < e && (forall x :: x in act ==> x <= maxCode) && maxCode in act
    ensures forall s: nat :: s < e && s !in act ==> s < |t1| && t1[s].dl == 0
    ensures forall s: nat :: s < e && s < |Freqs(t1)| ==> s < |t| && Freqs(t1)[s] == t[s].fc
    ensures e <= |t1|
  {
  }

  lemma CodesFit(lens: seq<nat>, t: seq<CtData>, e: nat, leaves: set<nat>, max: nat, maxCode: nat, bl: seq<nat>)
    requires CodeLengths(t, e, leaves, lens, max) && max <= MAX_BITS && maxCode < e && Complete(lens)
    requires BlCounts(bl, lens)
    requires forall i :: maxCode + 1 <= i < |lens| ==> lens[i] == 0
    ensures maxCode < |t| && lens[..maxCode + 1] == Lens(t, maxCode + 1)
    ensures ValidLens(lens[..maxCode + 1]) && NotOver(lens[..maxCode + 1]) && BlCounts(bl, lens[..maxCode + 1])
  {
    Trimmed(bl, lens, maxCode + 1);
  }

  /** A tree: its leaves, its nodes in the order in which they were joined, and their weights. */
  datatype HuffTree = HuffTree(leaves: set<nat>, rec: seq<nat>, w: seq<nat>)

  /** t is a tree built by joining the lightest nodes first; its leaves are the symbols that occur if these are two. */
  ghost predicate TreeOf(f: seq<nat>, t: HuffTree)
  {
    && IsTree(|f|, t.leaves, t.rec, t.w) && Rising(t.rec, t.w) && Occurs(f) <= t.leaves
    && (forall x :: x in Occurs(f) ==> x < |t.w| && t.w[x] == f[x])
    && (|Occurs(f)| >= 2 ==> t.leaves == Occurs(f)) && (|Occurs(f)| < 2 ==> |t.leaves| == 2)
  }

  /** The leaves of the tree weigh as much as all symbols. */
  lemma {:induction false} MassIs(act: set<nat>, w: seq<nat>, f: seq<nat>, n: nat)
    requires n <= |w| && forall x: nat :: x < n ==> if x in act then x < |f| && w[x] == f[x] else x < |f| ==> f[x] == 0
    ensures Cost(act, w, seq(|w|, _ => 1), n) == Total(f, if n <= |f| then n else |f|)
  {
    if n > 0 {
      MassIs(act, w, f, n - 1);
    }
  }

  /** What the tree says about the frequencies. */
  lemma TreeIs(t0: seq<CtData>, t: seq<CtData>, e: nat, act0: set<nat>, act: set<nat>, maxCode: nat, rec: seq<nat>,
               w: seq<nat>, max: nat)
    requires Prepared(t0, t, e, act0, act, maxCode) && IsTree(e, act, rec, w) && Rising(rec, w) && max >= 1
    requires forall s: nat :: s < e && s < |w| ==> w[s] == t[s].fc
    requires e <= |w| && |rec| == 2 * (|act| - 1) && e + |rec| / 2 - 1 < |w|
    requires w[e + |rec| / 2 - 1] == Mass(act, Freqs(t))
    ensures TreeOf(FirstFreqs(t0, e), HuffTree(act, rec, w))
    ensures act == act0 <==> |Occurs(FirstFreqs(t0, e))| >= 2
    ensures Deep(e, act, rec, max) ==> Total(FirstFreqs(t0, e), e) >= Fib(max + 3)
  {
    hide IsTree, Rising, Deep, Fib;
    var f := FirstFreqs(t0, e);
    assert Occurs(f) == act0;
    TwoAtLeast(e, act, rec, w);
    if act != act0 {
      Fewer(act0, act);
      TwoLeaves(e, act, rec, w, max);
    } else if Deep(e, act, rec, max) {
      DeepIsHeavy(e, act, rec, w, max);
      MassIs(act, Freqs(t), f, |t|);
    }
  }

  lemma AllReady(h: seq<nat>, len: nat, tree: seq<CtData>, depth: seq<nat>, e: nat, leaves: set<nat>)
    requires Ready(h, len, tree, depth, e, leaves)
    ensures |leaves| == len
  {
    assert |h[1..len + 1]| == len;
    assert |multiset(leaves)| == |leaves|;
  }

  lemma ListedTree(h: seq<nat>, heapMax: nat, tree: seq<CtData>, e: nat, leaves: set<nat>, rec: seq<nat>)
    requires Listed(h, heapMax, tree, e, leaves, rec)
    ensures IsTree(e, leaves, rec, Freqs(tree)) && Rising(rec, Freqs(tree))
  {
    hide IsTree, Rising, LowerBound;
  }

  lemma FreqsIs(t: seq<CtData>)
    ensures |Freqs(t)| == |t| && forall i :: 0 <= i < |t| ==> Freqs(t)[i] == t[i].fc
  {
  }

  lemma TwoAtLeast(e: nat, leaves: set<nat>, rec: seq<nat>, w: seq<nat>)
    requires IsTree(e, leaves, rec, w)
    ensures |rec| >= 2
  {
  }

  lemma Fewer(s: set<nat>, t: set<nat>)
    requires s <= t && s != t
    ensures |s| < |t|
  {
    assert t == s + (t - s);
    assert |t - s| > 0;
  }

  /** What the lengths are worth. */
  lemma LengthsDone(t0: seq<CtData>, t: seq<CtData>, t1: seq<CtData>, act0: set<nat>, act: set<nat>, maxCode: nat,
                    rec: seq<nat>, w: seq<nat>, lens: seq<nat>, d: Desc, xb: seq<nat>, at0: Sums, at1: Sums, at2: Sums)
    requires ValidDesc(d, xb) && Prepared(t0, t, d.elems, act0, act, maxCode) && |lens| == d.elems <= |w|
    requires CodeLengths(t1, d.elems, act, lens, d.maxLength) && Complete(lens)
    requires forall s: nat :: s < d.elems ==> w[s] == t[s].fc
    requires at1.opt == at0.opt - StaticOff([1, 1, 1], act0, act)
    requires at1.stat == at0.stat - if d.slens == [] then 0 else StaticOff(d.slens, act0, act)
    requires Added(at1, at2, w, lens, d.slens, xb, d.elems) && Fair(act, w, lens)
    requires IsTree(d.elems, act, rec, w) && Rising(rec, w) && |rec| == 2 * (|act| - 1)
    requires d.elems + |rec| / 2 - 1 < |w| && w[d.elems + |rec| / 2 - 1] == Mass(act, Freqs(t))
    requires !Deep(d.elems, act, rec, d.maxLength) ==> LowerBound(act, w, Cost(act, w, lens, d.elems))
    ensures maxCode + 1 <= d.elems && forall i :: maxCode + 1 <= i < |lens| ==> lens[i] == 0
    ensures var f := FirstFreqs(t0, d.elems);
            && Counted(at0, at2, f, lens[..maxCode + 1], d, xb) && FairCodes(f, lens[..maxCode + 1])
            && TreeOf(f, HuffTree(act, rec, w))
            && (|Occurs(f)| >= 2 && !Deep(d.elems, act, rec, d.maxLength) ==> Cheapest(f, lens[..maxCode + 1]))
            && (Deep(d.elems, act, rec, d.maxLength) ==> Total(f, d.elems) >= Fib(d.maxLength + 3))
  {
    hide Prepared, CodeLengths, Complete, Added, Fair, LowerBound, Counted, Cheapest, FairCodes, Freqs, Total,
         StaticOff, Cost, Deep, IsTree, Rising, Mass, Occurs, TreeOf, Fib;
    Conclude(t0, t, t1, act0, act, maxCode, w, lens, d, xb, at0, at1, at2);
    FairIs(t0, t, act0, act, maxCode, w, lens, d.elems);
    TreeIs(t0, t, d.elems, act0, act, maxCode, rec, w, d.maxLength);
    if act == act0 && !Deep(d.elems, act, rec, d.maxLength) {
      CheapestIs(t0, t, act0, act, maxCode, w, lens, d.elems);
    }
  }

  /** build_tree up to the fathers: the queue, the forced codes and the join loop. */
  method JoinSymbols(tree: array<CtData>, heap: array<nat>, depth: array<nat>, d: Desc, sums0: Sums, ghost xb: seq<nat>)
    returns (heapMax: nat, maxCode: nat, sums: Sums, ghost act0: set<nat>, ghost act: set<nat>, ghost rec: seq<nat>,
             ghost t1: seq<CtData>)
    requires heap != depth && heap.Length == HEAP_SIZE == depth.Length && 2 * d.elems < tree.Length <= HEAP_SIZE
    requires ValidDesc(d, xb) && Total(FirstFreqs(tree[..], d.elems), d.elems) < 0x10000 - 3
    modifies tree, heap, depth
    ensures Prepared(old(tree[..]), t1, d.elems, act0, act, maxCode)
    ensures sums.opt == sums0.opt - StaticOff([1, 1, 1], act0, act)
    ensures sums.stat == sums0.stat - if d.slens == [] then 0 else StaticOff(d.slens, act0, act)
    ensures Listed(heap[..], heapMax, tree[..], d.elems, act, rec)
    ensures IsTree(d.elems, act, rec, Freqs(tree[..])) && Rising(rec, Freqs(tree[..]))
    ensures |rec| == 2 * (|act| - 1) && d.elems + |rec| / 2 - 1 < tree.Length
    ensures tree[d.elems + |rec| / 2 - 1].fc == Mass(act, Freqs(t1))
    ensures maxCode < d.elems && (forall x :: x in act ==> x <= maxCode) && maxCode in act
    ensures forall s: nat :: s < d.elems && s !in act ==> s < tree.Length && tree[s].dl == 0
    ensures forall s: nat :: s < d.elems && s < tree.Length ==> s < |t1| && tree[s].fc == t1[s].fc
  {
    hide Prepared, Ready, Listed, SymbolsKept, Freqs, Total, StaticOff, IsTree, Rising, Mass;
    var len;
    len, maxCode, sums, act0, act := PrepareQueue(tree, heap, depth, d, sums0, xb);
    t1 := tree[..];
    AllReady(heap[..], len, t1, depth[..], d.elems, act);
    heapMax, rec := JoinAll(tree, heap, depth, d.elems, len, act);
    AfterJoin(old(tree[..]), t1, tree[..], d.elems, act0, act, maxCode);
    FreqsIs(tree[..]);
    ListedTree(heap[..], heapMax, tree[..], d.elems, act, rec);
  }

  /** build_tree: from frequencies to lengths and codes. */
  method BuildTree(tree: array<CtData>, heap: array<nat>, depth: array<nat>, blCount: array<nat>, d: Desc, sums0: Sums,
                   ghost xb: seq<nat>)
    returns (maxCode: nat, sums: Sums, ghost lens: seq<nat>, ghost t: HuffTree)
    requires Room(tree, heap, depth, blCount, d) && ValidDesc(d, xb)
    requires Total(FirstFreqs(tree[..], d.elems), d.elems) < 0x10000 - 3
    modifies tree, heap, depth, blCount
    ensures Built(old(FirstFreqs(tree[..], d.elems)), tree[..], d, maxCode, lens)
    ensures Counted(sums0, sums, old(FirstFreqs(tree[..], d.elems)), lens, d, xb)
    ensures FairCodes(old(FirstFreqs(tree[..], d.elems)), lens)
    ensures TreeOf(old(FirstFreqs(tree[..], d.elems)), t)
    ensures var f := old(FirstFreqs(tree[..], d.elems));
            |Occurs(f)| >= 2 && !Deep(|f|, t.leaves, t.rec, d.maxLength) ==> Cheapest(f, lens)
    ensures var f := old(FirstFreqs(tree[..], d.elems));
            Deep(|f|, t.leaves, t.rec, d.maxLength) ==> Total(f, |f|) >= Fib(d.maxLength + 3)
  {
    hide Prepared, Ready, Listed, CodeLengths, Complete, BlCounts, Added, Fair, LowerBound, OthersKept, SymbolsKept,
         Built, Counted, Cheapest, FairCodes, CodedUpTo, Freqs, Total, StaticOff, Cost, Deep, IsTree, Rising, Mass,
         Occurs, TreeOf, Fib;
    ghost var t0 := tree[..];
    var heapMax, sums1;
    ghost var act0, act, rec, t1;
    heapMax, maxCode, sums1, act0, act, rec, t1 := JoinSymbols(tree, heap, depth, d, sums0, xb);
    ghost var w, full := Freqs(tree[..]), [];
    FreqsIs(tree[..]);
    // fathers are known now: first the lengths, then the codes
    sums, full := GenBitlen(tree, heap, blCount, d.elems, maxCode, d.maxLength, heapMax, d.extra, d.base, d.slens,
                            sums1, act, rec, xb);
    ghost var t2 := tree[..];
    FreqsLength(t2);
    LengthsDone(t0, t1, t2, act0, act, maxCode, rec, w, full, d, xb, sums0, sums1, sums);
    CodesFit(full, t2, d.elems, act, d.maxLength, maxCode, blCount[..]);
    lens := full[..maxCode + 1];
    GenCodes(tree, maxCode, blCount, lens);
    BuiltIs(t0, t1, t2, tree[..], act0, act, maxCode, full, d, xb, blCount[..]);
    t := HuffTree(act, rec, w);
  }

  lemma FreqsLength(t: seq<CtData>)
    ensures |Freqs(t)| == |t|
  {
  }
}
