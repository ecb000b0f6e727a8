/** gen_bitlen (trees.c): code lengths from the tree, with overlong codes repaired. */
module BitLengths {
  import opened Shift
  import opened Canonical
  import opened Huffman
  import opened Forest
  import opened Heap
  import opened HuffmanQueue
  import opened TreeDepth

  const MAX_BITS := 15

  // ---------- what the tables add up to ----------

  /** The bits of all symbols below n that have a code: frequency times the code and its extra bits. */
  ghost function BitsTotal(w: seq<nat>, lens: seq<nat>, xb: seq<nat>, n: nat): nat
    requires n <= |w| && n <= |lens| && n <= |xb|
  {
    if n == 0 then 0
    else BitsTotal(w, lens, xb, n - 1) + if lens[n - 1] > 0 then w[n - 1] * (lens[n - 1] + xb[n - 1]) else 0
  }

  lemma {:induction false} BitsTotalSet(w: seq<nat>, lens: seq<nat>, xb: seq<nat>, n: nat, s: nat, b: nat)
    requires n <= |w| && n <= |lens| && n <= |xb| && s < n && b > 0
    ensures BitsTotal(w, lens[s := b], xb, n)
            == BitsTotal(w, lens, xb, n) + w[s] * (b + xb[s]) - if lens[s] > 0 then w[s] * (lens[s] + xb[s]) else 0
  {
    if s == n - 1 {
      BitsTotalSame(w, lens, lens[s := b], xb, n - 1);
    } else {
      BitsTotalSet(w, lens, xb, n - 1, s, b);
    }
  }

  lemma {:induction false} BitsTotalSame(w: seq<nat>, lens: seq<nat>, lens1: seq<nat>, xb: seq<nat>, n: nat)
    requires n <= |w| && n <= |lens| && n <= |lens1| && n <= |xb| && forall i :: 0 <= i < n ==> lens[i] == lens1[i]
    ensures BitsTotal(w, lens, xb, n) == BitsTotal(w, lens1, xb, n)
  {
    if n > 0 {
      BitsTotalSame(w, lens, lens1, xb, n - 1);
    }
  }

  lemma {:induction false} BitsTotalNone(w: seq<nat>, lens: seq<nat>, xb: seq<nat>, n: nat)
    requires n <= |w| && n <= |lens| && n <= |xb| && forall i :: 0 <= i < n ==> lens[i] == 0
    ensures BitsTotal(w, lens, xb, n) == 0
  {
    if n > 0 {
      BitsTotalNone(w, lens, xb, n - 1);
    }
  }

  /** The bits of all symbols below n that have a code, when the static code is used instead. */
  ghost function StaticTotal(w: seq<nat>, lens: seq<nat>, slens: seq<nat>, xb: seq<nat>, n: nat): nat
    requires n <= |w| && n <= |lens| && n <= |xb| && n <= |slens|
  {
    if n == 0 then 0
    else StaticTotal(w, lens, slens, xb, n - 1) + if lens[n - 1] > 0 then w[n - 1] * (slens[n - 1] + xb[n - 1]) else 0
  }

  lemma {:induction false} StaticTotalSet(w: seq<nat>, lens: seq<nat>, slens: seq<nat>, xb: seq<nat>, n: nat, s: nat,
                                          b: nat)
    requires n <= |w| && n <= |lens| && n <= |xb| && n <= |slens| && s < n && b > 0 && lens[s] == 0
    ensures StaticTotal(w, lens[s := b], slens, xb, n) == StaticTotal(w, lens, slens, xb, n) + w[s] * (slens[s] + xb[s])
  {
    if s == n - 1 {
      StaticTotalSame(w, lens, lens[s := b], slens, xb, n - 1);
    } else {
      StaticTotalSet(w, lens, slens, xb, n - 1, s, b);
    }
  }

  lemma {:induction false} StaticTotalSame(w: seq<nat>, lens: seq<nat>, lens1: seq<nat>, slens: seq<nat>, xb: seq<nat>,
                                           n: nat)
    requires n <= |w| && n <= |lens| && n <= |lens1| && n <= |xb| && n <= |slens|
    requires forall i :: 0 <= i < n ==> (lens[i] > 0 <==> lens1[i] > 0)
    ensures StaticTotal(w, lens, slens, xb, n) == StaticTotal(w, lens1, slens, xb, n)
  {
    if n > 0 {
      StaticTotalSame(w, lens, lens1, slens, xb, n - 1);
    }
  }

  lemma {:induction false} StaticTotalNone(w: seq<nat>, lens: seq<nat>, slens: seq<nat>, xb: seq<nat>, n: nat)
    requires n <= |w| && n <= |lens| && n <= |xb| && n <= |slens| && forall i :: 0 <= i < n ==> lens[i] == 0
    ensures StaticTotal(w, lens, slens, xb, n) == 0
  {
    if n > 0 {
      StaticTotalNone(w, lens, slens, xb, n - 1);
    }
  }

  /** bl holds the counts of the lengths; bl[0] is not used. */
  ghost predicate BlCounts(bl: seq<nat>, lens: seq<nat>)
  {
    |bl| == MAX_BITS + 1 && bl[0] == 0 && forall b :: 1 <= b <= MAX_BITS ==> bl[b] == Count(lens, b)
  }

  lemma {:induction false} CountSet(lens: seq<nat>, s: nat, b: nat, c: nat)
    requires s < |lens|
    ensures Count(lens[s := b], c) == Count(lens, c) + (if b == c then 1 else 0) - (if lens[s] == c then 1 else 0)
  {
    if s == |lens| - 1 {
      assert lens[s := b][..|lens| - 1] == lens[..|lens| - 1];
    } else {
      CountSet(lens[..|lens| - 1], s, b, c);
      assert lens[s := b][..|lens| - 1] == lens[..|lens| - 1][s := b];
    }
  }

  // ---------- the first pass ----------

  /** The extra bits of symbol n. */
  function XBits(extra: seq<nat>, base: nat, n: nat): nat
    requires n >= base ==> n - base < |extra|
  {
    if n >= base then extra[n - base] else 0
  }

  lemma XBitAt(extra: seq<nat>, base: nat, xb: seq<nat>, n: nat)
    requires XBitsOf(extra, base, xb) && n < |xb|
    ensures (n >= base ==> n - base < |extra|) && XBits(extra, base, n) == xb[n]
  {
    assert xb[n] in xb;
  }

  ghost predicate XBitsOf(extra: seq<nat>, base: nat, xb: seq<nat>)
  {
    forall n :: 0 <= n < |xb| ==> (n >= base ==> n - base < |extra|) && xb[n] == XBits(extra, base, n)
  }

  function Zeros(n: nat): (s: seq<nat>)
    ensures |s| == n && forall i :: 0 <= i < n ==> s[i] == 0
  {
    seq(n, _ => 0)
  }

  method SetLen(tree: array<CtData>, n: nat, bits: nat)
    requires n < tree.Length
    modifies tree
    ensures tree[..] == old(tree[..])[n := old(tree[n]).(dl := bits)]
  {
    tree[n] := tree[n].(dl := bits);
  }

  method CountLen(blCount: array<nat>, bits: nat)
    requires bits < blCount.Length
    modifies blCount
    ensures blCount[..] == old(blCount[..])[bits := old(blCount[bits]) + 1]
  {
    blCount[bits] := blCount[bits] + 1;
  }

  /** Where the pass stands when the records below k are still to be visited. */
  ghost predicate Visiting(t: seq<CtData>, w: seq<nat>, e: nat, leaves: set<nat>, rec: seq<nat>, l: seq<nat>,
                           lens: seq<nat>, k: nat)
  {
    && Freqs(t) == w && k <= |rec| && |lens| == e <= |t| == |l|
    && (forall j :: 0 <= j < |rec| ==> rec[j] < |t|)
    && (forall j :: 0 <= j < k ==> t[rec[j]].dl == Father(e, j))
    && (forall j :: k <= j < |rec| ==> t[rec[j]].dl == l[rec[j]])
    && e + |rec| / 2 - 1 < |t| && |rec| >= 2 && t[e + |rec| / 2 - 1].dl == l[e + |rec| / 2 - 1] == 0
    && (forall j :: 0 <= j < |rec| && rec[j] in leaves ==> rec[j] < e && lens[rec[j]] == if j < k then 0 else l[rec[j]])
    && (forall s :: 0 <= s < e && s !in leaves ==> lens[s] == 0)
  }

  lemma FatherVisited(t: seq<CtData>, w: seq<nat>, e: nat, leaves: set<nat>, rec: seq<nat>, l: seq<nat>,
                      lens: seq<nat>, k: nat, max: nat)
    requires Visiting(t, w, e, leaves, rec, l, lens, k) && k > 0
    requires IsTree(e, leaves, rec, w) && Lengths(e, rec, l, max)
    ensures |lens| == e <= |t| == |l| && rec[k - 1] < |t| && Freqs(t) == w
    ensures t[rec[k - 1]].dl == Father(e, k - 1) < |t|
    ensures t[Father(e, k - 1)].dl == l[Father(e, k - 1)]
    ensures l[rec[k - 1]] == Below1(l[Father(e, k - 1)], max)
  {
    var j := FatherLater(e, leaves, rec, w, k - 1);
  }

  lemma Visit(t: seq<CtData>, w: seq<nat>, e: nat, leaves: set<nat>, rec: seq<nat>, l: seq<nat>,
              lens: seq<nat>, k: nat, max: nat)
    requires Visiting(t, w, e, leaves, rec, l, lens, k) && k > 0
    requires IsTree(e, leaves, rec, w) && Lengths(e, rec, l, max)
    ensures var n := rec[k - 1];
            && n < |t| && (n in leaves ==> n < e && lens[n] == 0) && (n !in leaves ==> n >= e)
            && Visiting(t[n := t[n].(dl := l[n])], w, e, leaves, rec, l, if n in leaves then lens[n := l[n]]
                else lens, k - 1)
  {
    var n := rec[k - 1];
    NoLaterFather(e, leaves, rec, w, k - 1);
    assert IsNode(e, leaves, (k - 1) / 2, n);
    assert forall j :: 0 <= j < |rec| && j != k - 1 ==> rec[j] != n;
    assert Freqs(t[n := t[n].(dl := l[n])]) == w;
  }

  /** The visited records whose father is at the cut. */
  ghost function Over(e: nat, l: seq<nat>, k: nat, n: nat, max: nat): nat
    requires k <= n && (k < n ==> Father(e, n - 1) < |l|)
    decreases n - k
  {
    if k == n then 0 else Over(e, l, k + 1, n, max) + if l[Father(e, k)] == max then 1 else 0
  }

  lemma {:induction false} OverIsCutOff(e: nat, l: seq<nat>, i: nat, n: nat, max: nat)
    requires i <= n && e + n <= |l|
    ensures Over(e, l, 2 * i, 2 * n, max) == 2 * CutOff(e, l, i, n, max)
    decreases n - i
  {
    if i < n {
      OverIsCutOff(e, l, i + 1, n, max);
      assert Father(e, 2 * i) == e + i && Father(e, 2 * i + 1) == e + i;
    }
  }

  lemma FathersUnder(e: nat, leaves: set<nat>, rec: seq<nat>, w: seq<nat>, l: seq<nat>, max: nat, k: nat)
    requires Above(e, leaves, rec, w, l, max) && k < |rec|
    ensures Father(e, k) < |l| && l[Father(e, k)] <= max && 1 <= l[rec[k]] <= max
  {
    var j := FatherLater(e, leaves, rec, w, k);
  }

  datatype Sums = Sums(opt: int, stat: int)

  /** The counters after the symbols of lens have been added to those of at0. */
  ghost predicate Added(at0: Sums, at1: Sums, w: seq<nat>, lens: seq<nat>, slens: seq<nat>, xb: seq<nat>, e: nat)
  {
    && e <= |w| && e == |lens| == |xb| && (slens == [] || |slens| >= e)
    && at1.opt == at0.opt + BitsTotal(w, lens, xb, e)
    && at1.stat == at0.stat + if slens == [] then 0 else StaticTotal(w, lens, slens, xb, e)
  }

  lemma AddOne(at0: Sums, at1: Sums, w: seq<nat>, lens: seq<nat>, slens: seq<nat>, xb: seq<nat>, e: nat, n: nat, b: nat)
    requires Added(at0, at1, w, lens, slens, xb, e) && n < e && lens[n] == 0 && b > 0
    ensures Added(at0, Sums(at1.opt + w[n] * (b + xb[n]), if slens == [] then at1.stat
             else at1.stat + w[n] * (slens[n] + xb[n])),
                  w, lens[n := b], slens, xb, e)
  {
    BitsTotalSet(w, lens, xb, e, n, b);
    if slens != [] {
      StaticTotalSet(w, lens, slens, xb, e, n, b);
    }
  }

  lemma CountOne(bl: seq<nat>, lens: seq<nat>, n: nat, b: nat)
    requires BlCounts(bl, lens) && n < |lens| && lens[n] == 0 && 1 <= b <= MAX_BITS
    ensures BlCounts(bl[b := bl[b] + 1], lens[n := b])
  {
    var bl1, lens1 := bl[b := bl[b] + 1], lens[n := b];
    forall c | 1 <= c <= MAX_BITS
      ensures bl1[c] == Count(lens1, c)
    {
      CountSet(lens, n, b, c);
    }
  }

  lemma StartVisit(t: seq<CtData>, e: nat, leaves: set<nat>, rec: seq<nat>, l: seq<nat>, max: nat)
    requires Above(e, leaves, rec, Freqs(t), l, max) && Dads(t, e, rec)
    requires forall s: nat :: s < e && s !in leaves ==> t[s].dl == 0
    ensures var root := e + |rec| / 2 - 1;
            && root < |t|
            && Visiting(t[root := t[root].(dl := 0)], Freqs(t), e, leaves, rec, l, Zeros(e), |rec|)
            && Freqs(t[root := t[root].(dl := 0)]) == Freqs(t)
  {
    var root := e + |rec| / 2 - 1;
    forall k | 0 <= k < |rec|
      ensures rec[k] < |t| && rec[k] != root && (rec[k] in leaves ==> rec[k] < e)
    {
      NoLaterFather(e, leaves, rec, Freqs(t), k);
    }
    assert Freqs(t[root := t[root].(dl := 0)]) == Freqs(t);
  }

  /** Symbols outside the tree are not touched. */
  ghost predicate OthersKept(t0: seq<CtData>, t1: seq<CtData>, e: nat, leaves: set<nat>)
  {
    |t0| == |t1| && e <= |t0| && forall s: nat :: s < e && s !in leaves ==> t1[s] == t0[s]
  }

  lemma KeptBoth(t0: seq<CtData>, t1: seq<CtData>, t2: seq<CtData>, e: nat, leaves: set<nat>)
    requires OthersKept(t0, t1, e, leaves) && OthersKept(t1, t2, e, leaves)
    ensures OthersKept(t0, t2, e, leaves)
  {
  }

  lemma KeptOne(t0: seq<CtData>, e: nat, leaves: set<nat>, n: nat, x: CtData)
    requires e <= |t0| && n < |t0| && (n in leaves || n >= e)
    ensures OthersKept(t0, t0[n := x], e, leaves)
  {
  }

  lemma KeptAll(t0: seq<CtData>, e: nat, leaves: set<nat>)
    requires e <= |t0|
    ensures OthersKept(t0, t0, e, leaves)
  {
  }

  /** Visits one node. */
  method VisitOne(tree: array<CtData>, blCount: array<nat>, n: nat, e: nat, maxCode: nat, max: nat,
                  extra: seq<nat>, base: nat, slens: seq<nat>, overflow0: nat, sums1: Sums, ghost sums0: Sums,
                  ghost leaves: set<nat>, ghost rec: seq<nat>, ghost w: seq<nat>, ghost l: seq<nat>, ghost xb: seq<nat>,
                  ghost lens0: seq<nat>, ghost k: nat)
    returns (overflow: nat, sums: Sums, ghost lens: seq<nat>)
    requires blCount.Length == MAX_BITS + 1 && 1 <= max <= MAX_BITS && 0 < k <= |rec| && n == rec[k - 1]
    requires Above(e, leaves, rec, w, l, max) && Visiting(tree[..], w, e, leaves, rec, l, lens0, k)
    requires maxCode < e && forall x :: x in leaves ==> x <= maxCode
    requires |xb| == e && XBitsOf(extra, base, xb) && (slens == [] || |slens| >= e)
    requires BlCounts(blCount[..], lens0) && Added(sums0, sums1, w, lens0, slens, xb, e)
    requires overflow0 == Over(e, l, k, |rec|, max)
    modifies tree, blCount
    ensures Visiting(tree[..], w, e, leaves, rec, l, lens, k - 1)
    ensures BlCounts(blCount[..], lens) && Added(sums0, sums, w, lens, slens, xb, e)
    ensures overflow == Over(e, l, k - 1, |rec|, max)
    ensures OthersKept(old(tree[..]), tree[..], e, leaves)
  {
    hide BlCounts, Added, Visiting, Over, Above, XBits, OthersKept, Freqs;
    ghost var t0 := tree[..];
    overflow, sums, lens := overflow0, sums1, lens0;
    AboveFacts(e, leaves, rec, w, l, max, k);
    FatherVisited(t0, w, e, leaves, rec, l, lens0, k, max);
    Visit(t0, w, e, leaves, rec, l, lens0, k, max);
    OverOne(e, l, k - 1, |rec|, max);
    var bits := tree[tree[n].dl].dl + 1;
    if bits > max {
      bits := max;
      overflow := overflow + 1;
    }
    SetLen(tree, n, bits);   // in place of the father, which has been used
    KeptOne(t0, e, leaves, n, t0[n].(dl := l[n]));
    if n <= maxCode {   // a leaf node
      CountOne(blCount[..], lens0, n, bits);
      CountLen(blCount, bits);
      XBitAt(extra, base, xb, n);
      FreqAt(t0, n);
      var xbits := XBits(extra, base, n);
      var f := tree[n].fc;
      AddOne(sums0, sums1, w, lens0, slens, xb, e, n, bits);
      sums := Sums(sums.opt + f * (bits + xbits), if slens == [] then sums.stat
          else sums.stat + f * (slens[n] + xbits));
      lens := lens0[n := bits];
    }
  }

  lemma AboveFacts(e: nat, leaves: set<nat>, rec: seq<nat>, w: seq<nat>, l: seq<nat>, max: nat, k: nat)
    requires Above(e, leaves, rec, w, l, max) && 0 < k <= |rec|
    ensures IsTree(e, leaves, rec, w) && Lengths(e, rec, l, max) && |l| == |w|
    ensures rec[k - 1] < |l| && 1 <= l[rec[k - 1]] <= max && Father(e, k - 1) < |l| && l[Father(e, k - 1)] <= max
    ensures Father(e, |rec| - 1) < |l|
  {
    FathersUnder(e, leaves, rec, w, l, max, k - 1);
    FathersUnder(e, leaves, rec, w, l, max, |rec| - 1);
  }

  lemma OverOne(e: nat, l: seq<nat>, k: nat, n: nat, max: nat)
    requires k < n && Father(e, n - 1) < |l|
    ensures Over(e, l, k, n, max) == Over(e, l, k + 1, n, max) + if l[Father(e, k)] == max then 1 else 0
  {
  }

  /** Computes the lengths of all nodes from the root down, the counts, and the size of the block. */
  method FirstPass(tree: array<CtData>, heap: array<nat>, blCount: array<nat>, e: nat, maxCode: nat, max: nat,
                   heapMax: nat, extra: seq<nat>, base: nat, slens: seq<nat>, sums0: Sums, ghost leaves: set<nat>,
                   ghost rec: seq<nat>, ghost l: seq<nat>, ghost xb: seq<nat>)
    returns (overflow: nat, sums: Sums, ghost lens: seq<nat>)
    requires blCount != heap && blCount.Length == MAX_BITS + 1 && 1 <= max <= MAX_BITS
    requires Listed(heap[..], heapMax, tree[..], e, leaves, rec)
    requires Above(e, leaves, rec, Freqs(tree[..]), l, max)
    requires forall s: nat :: s < e && s !in leaves ==> s < tree.Length && tree[s].dl == 0
    requires maxCode < e && forall x :: x in leaves ==> x <= maxCode
    requires |xb| == e && XBitsOf(extra, base, xb) && (slens == [] || |slens| >= e)
    modifies tree, blCount
    ensures Freqs(tree[..]) == old(Freqs(tree[..]))
    ensures Visiting(tree[..], Freqs(tree[..]), e, leaves, rec, l, lens, 0)
    ensures OthersKept(old(tree[..]), tree[..], e, leaves)
    ensures BlCounts(blCount[..], lens)
    ensures Added(sums0, sums, Freqs(tree[..]), lens, slens, xb, e)
    ensures overflow == 2 * CutOff(e, l, 0, |rec| / 2, max)
  {
    hide BlCounts, Added, Visiting, Over, Above, IsTree, Rising, LowerBound, Joined, Freqs, CutOff, OthersKept;
    ghost var w, t0 := Freqs(tree[..]), tree[..];
    NoCounts(e);
    for b := 0 to MAX_BITS + 1
      invariant tree[..] == t0 && forall c :: 0 <= c < b ==> blCount[c] == 0
    {
      blCount[b] := 0;
    }
    assert blCount[..] == Zeros(MAX_BITS + 1);
    StartVisit(t0, e, leaves, rec, l, max);
    NothingOver(e, leaves, rec, w, l, max);
    var root := heap[heapMax];
    SetLen(tree, root, 0);   // root of the heap
    KeptOne(t0, e, leaves, root, t0[root].(dl := 0));
    overflow, sums, lens := 0, sums0, Zeros(e);
    NothingAdded(sums0, w, slens, xb, e);
    var h := heapMax + 1;
    while h < HEAP_SIZE
      invariant heapMax < h <= HEAP_SIZE
      invariant Visiting(tree[..], w, e, leaves, rec, l, lens, HEAP_SIZE - h)
      invariant BlCounts(blCount[..], lens) && Added(sums0, sums, w, lens, slens, xb, e)
      invariant overflow == Over(e, l, HEAP_SIZE - h, |rec|, max)
      invariant OthersKept(t0, tree[..], e, leaves)
    {
      assert heap[h] == rec[HEAP_SIZE - h - 1];
      ghost var t1 := tree[..];
      overflow, sums, lens := VisitOne(tree, blCount, heap[h], e, maxCode, max, extra, base, slens, overflow, sums,
          sums0,
                                       leaves, rec, w, l, xb, lens, HEAP_SIZE - h);
      KeptBoth(t0, t1, tree[..], e, leaves);
      h := h + 1;
    }
    VisitedFreqs(tree[..], w, e, leaves, rec, l, lens, 0);
    OverIsCut(e, leaves, rec, w, l, max);
  }

  lemma NoCounts(e: nat)
    ensures BlCounts(Zeros(MAX_BITS + 1), Zeros(e))
  {
    var bl, lens := Zeros(MAX_BITS + 1), Zeros(e);
    forall c | 1 <= c <= MAX_BITS
      ensures bl[c] == Count(lens, c)
    {
      CountZero(lens, c);
    }
  }

  lemma NothingAdded(sums: Sums, w: seq<nat>, slens: seq<nat>, xb: seq<nat>, e: nat)
    requires e <= |w| && e == |xb| && (slens == [] || |slens| >= e)
    ensures Added(sums, sums, w, Zeros(e), slens, xb, e)
  {
    BitsTotalNone(w, Zeros(e), xb, e);
    if slens != [] {
      StaticTotalNone(w, Zeros(e), slens, xb, e);
    }
  }

  lemma NothingOver(e: nat, leaves: set<nat>, rec: seq<nat>, w: seq<nat>, l: seq<nat>, max: nat)
    requires Above(e, leaves, rec, w, l, max)
    ensures Over(e, l, |rec|, |rec|, max) == 0 && e <= |w| && Father(e, |rec| - 1) < |l| && |rec| >= 2
  {
  }

  lemma OverIsCut(e: nat, leaves: set<nat>, rec: seq<nat>, w: seq<nat>, l: seq<nat>, max: nat)
    requires Above(e, leaves, rec, w, l, max)
    ensures e + |rec| / 2 <= |l| && (|rec| > 0 ==> Father(e, |rec| - 1) < |l|)
    ensures Over(e, l, 0, |rec|, max) == 2 * CutOff(e, l, 0, |rec| / 2, max)
  {
    OverIsCutOff(e, l, 0, |rec| / 2, max);
  }

  lemma VisitedFreqs(t: seq<CtData>, w: seq<nat>, e: nat, leaves: set<nat>, rec: seq<nat>, l: seq<nat>, lens: seq<nat>,
                     k: nat)
    requires Visiting(t, w, e, leaves, rec, l, lens, k)
    ensures Freqs(t) == w
  {
  }

  // ---------- repairing overlong codes ----------

  /** The strings of b bits that the counted codes of at most b bits use up. */
  function UsedOf(bl: seq<nat>, b: nat): nat
    requires b < |bl|
  {
    if b == 0 then 0 else 2 * UsedOf(bl, b - 1) + bl[b]
  }

  /** The number of codes of at most b bits. */
  function TotalOf(bl: seq<nat>, b: nat): nat
    requires b < |bl|
  {
    if b == 0 then 0 else TotalOf(bl, b - 1) + bl[b]
  }

  lemma {:induction false} CountsAgree(bl: seq<nat>, lens: seq<nat>, b: nat)
    requires BlCounts(bl, lens) && b <= MAX_BITS
    ensures UsedOf(bl, b) == Used(lens, b) && TotalOf(bl, b) == Below(lens, b + 1)
  {
    if b > 0 {
      CountsAgree(bl, lens, b - 1);
    }
  }

  lemma {:induction false} UsedOfSet(bl: seq<nat>, b: nat, v: nat, m: nat)
    requires m < |bl| && 1 <= b < |bl|
    ensures m < b ==> UsedOf(bl[b := v], m) == UsedOf(bl, m) && TotalOf(bl[b := v], m) == TotalOf(bl, m)
    ensures m >= b ==> UsedOf(bl[b := v], m) == UsedOf(bl, m) + Shl(v - bl[b], m - b)
                       && TotalOf(bl[b := v], m) == TotalOf(bl, m) + v - bl[b]
  {
    if m > 0 {
      UsedOfSet(bl, b, v, m - 1);
    }
  }

  lemma {:induction false} NoneShorter(bl: seq<nat>, m: nat)
    requires m < |bl| && forall b :: 1 <= b <= m ==> bl[b] == 0
    ensures UsedOf(bl, m) == 0 && TotalOf(bl, m) == 0
  {
    if m > 0 {
      NoneShorter(bl, m - 1);
    }
  }

  /** As long as the codes of max bits overfill, some code is shorter. */
  lemma ShorterCode(bl: seq<nat>, max: nat) returns (b: nat)
    requires 1 <= max < |bl| && UsedOf(bl, max) > Pow2(max) >= TotalOf(bl, max)
    ensures 1 <= b < max && bl[b] > 0
  {
    if !exists b :: 1 <= b < max && bl[b] > 0 {
      NoneShorter(bl, max - 1);
    }
    b :| 1 <= b < max && bl[b] > 0;
  }

  /** One leaf of length b moves down, an overlong one moves up beside it. */
  function MovedDown(bl: seq<nat>, b: nat, max: nat): seq<nat>
    requires b + 1 <= max < |bl| && bl[b] > 0 && bl[max] > 0
  {
    var bl1 := bl[b := bl[b] - 1];
    var bl2 := bl1[b + 1 := bl1[b + 1] + 2];
    bl2[max := bl2[max] - 1]
  }

  lemma MoveDown(bl: seq<nat>, b: nat, max: nat)
    requires 1 <= b < max < |bl| && bl[b] > 0 && bl[max] > 0
    ensures var bl1 := MovedDown(bl, b, max);
            && |bl1| == |bl|
            && UsedOf(bl1, max) == UsedOf(bl, max) - 1 && TotalOf(bl1, max) == TotalOf(bl, max)
            && bl1[max] >= bl[max] - 1 && bl1[0] == bl[0] && forall i :: max < i < |bl| ==> bl1[i] == bl[i]
  {
    hide UsedOf, TotalOf;
    var bl1: seq<nat> := bl[b := bl[b] - 1];
    var bl2: seq<nat> := bl1[b + 1 := bl1[b + 1] + 2];
    UsedOfSet(bl, b, bl[b] - 1, max);
    UsedOfSet(bl1, b + 1, bl1[b + 1] + 2, max);
    UsedOfSet(bl2, max, bl2[max] - 1, max);
    assert Shl(-1, max - b) == 2 * Shl(-1, max - b - 1);
    ShlAdd(-1, 2, max - b - 1);
    ShlAdd(-1, 1, max - b - 1);
    ShlOne(max - b - 1);
  }

  /** The overfull counts of the first pass. */
  ghost predicate Overfull(bl: seq<nat>, max: nat, overflow: int)
  {
    && |bl| == MAX_BITS + 1 && 1 <= max <= MAX_BITS && bl[0] == 0 && (forall b :: max < b <= MAX_BITS ==> bl[b] == 0)
    && TotalOf(bl, max) <= Pow2(max)
    && overflow == 2 * (UsedOf(bl, max) - Pow2(max)) >= 0 && (overflow > 0 ==> 2 * bl[max] > overflow)
  }

  /** Finds for every overlong code a shorter leaf to put it under, until the codes exactly fill the room. */
  method Repair(blCount: array<nat>, max: nat, overflow0: int)
    requires Overfull(blCount[..], max, overflow0)
    modifies blCount
    ensures Overfull(blCount[..], max, 0)
    ensures TotalOf(blCount[..], max) == old(TotalOf(blCount[..], max))
  {
    var overflow := overflow0;
    while overflow > 0
      invariant Overfull(blCount[..], max, overflow)
      invariant TotalOf(blCount[..], max) == old(TotalOf(blCount[..], max))
    {
      ghost var bl := blCount[..];
      ghost var b0 := ShorterCode(bl, max);
      var bits := max - 1;
      assert bl[b0] == blCount[b0];
      while blCount[bits] == 0
        invariant b0 <= bits < max && blCount[..] == bl
        decreases bits
      {
        bits := bits - 1;
      }
      MoveDown(bl, bits, max);
      assert bl[bits] > 0 && bl[max] > 0;
      blCount[bits] := blCount[bits] - 1;            // a leaf goes one level deeper
      blCount[bits + 1] := blCount[bits + 1] + 2;    // and gets an overlong one for a sibling
      blCount[max] := blCount[max] - 1;
      assert blCount[..] == MovedDown(bl, bits, max);
      overflow := overflow - 2;
    }
  }

  // ---------- reassigning the lengths ----------

  /** The leaves among the first k records. */
  ghost function LeafCount(rec: seq<nat>, leaves: set<nat>, k: nat): nat
    requires k <= |rec|
  {
    if k == 0 then 0 else LeafCount(rec, leaves, k - 1) + if rec[k - 1] in leaves then 1 else 0
  }

  /** Every leaf is recorded once, and every other record is a joined node. */
  ghost predicate LeafOrder(rec: seq<nat>, leaves: set<nat>, e: nat, maxCode: nat)
  {
    && maxCode < e && (forall x :: x in leaves ==> x <= maxCode && exists j :: 0 <= j < |rec| && rec[j] == x)
    && (forall j :: 0 <= j < |rec| && rec[j] !in leaves ==> rec[j] >= e)
    && (forall i, j :: 0 <= i < j < |rec| ==> rec[i] != rec[j])
  }

  lemma LeafOrderAt(rec: seq<nat>, leaves: set<nat>, e: nat, maxCode: nat, k: nat)
    requires LeafOrder(rec, leaves, e, maxCode) && k < |rec|
    ensures rec[k] in leaves <==> rec[k] <= maxCode
    ensures rec[k] in leaves ==> rec[k] < e
    ensures forall j :: 0 <= j < |rec| && j != k ==> rec[j] != rec[k]
  {
  }

  /** Earlier leaves, the less frequent ones, have no shorter code. */
  ghost predicate Falling(rec: seq<nat>, leaves: set<nat>, lens: seq<nat>, k: nat)
  {
    && k <= |rec| && (forall j :: 0 <= j < k && rec[j] in leaves ==> rec[j] < |lens|)
    && forall i, j :: 0 <= i <= j < k && rec[i] in leaves && rec[j] in leaves ==> lens[rec[i]] >= lens[rec[j]]
  }

  /** The lengths given out so far, and those of the tree, after the first k records. */
  ghost predicate Given(t: seq<CtData>, w: seq<nat>, e: nat, leaves: set<nat>, rec: seq<nat>, cur: seq<nat>,
                        asg: seq<nat>, k: nat, bits: nat)
  {
    && Freqs(t) == w && |cur| == |asg| == e <= |t| && k <= |rec|
    && (forall s :: 0 <= s < e ==> t[s].dl == cur[s])
    && (forall s :: 0 <= s < e ==> (cur[s] > 0 <==> s in leaves))
    && (forall j :: 0 <= j < k && rec[j] in leaves ==> rec[j] < e && asg[rec[j]] == cur[rec[j]] >= bits)
    && (forall j :: k <= j < |rec| && rec[j] in leaves ==> rec[j] < e && asg[rec[j]] == 0)
    && (forall s :: 0 <= s < e && s !in leaves ==> asg[s] == 0)
    && (forall s :: 0 <= s < e ==> asg[s] <= MAX_BITS)
    && Falling(rec, leaves, asg, k)
  }

  /** How many codes of each length have been given out. */
  ghost predicate GivenCounts(bl: seq<nat>, asg: seq<nat>, bits: nat, n: nat)
  {
    && |bl| == MAX_BITS + 1 && bl[0] == 0 && 1 <= bits <= MAX_BITS && n <= bl[bits] && Count(asg, bits) == bl[bits] - n
    && (forall b :: bits < b <= MAX_BITS ==> Count(asg, b) == bl[b])
    && (forall b :: 1 <= b < bits ==> Count(asg, b) == 0)
  }

  lemma GiveOne(t: seq<CtData>, w: seq<nat>, e: nat, leaves: set<nat>, rec: seq<nat>, cur: seq<nat>, asg: seq<nat>,
                k: nat, bits: nat)
    requires Given(t, w, e, leaves, rec, cur, asg, k, bits) && k < |rec| && rec[k] in leaves && 0 < bits <= MAX_BITS
    requires forall j :: 0 <= j < |rec| && j != k ==> rec[j] != rec[k]
    ensures var m := rec[k];
            && m < e && cur[m] > 0 && asg[m] == 0
            && Given(t[m := t[m].(dl := bits)], w, e, leaves, rec, cur[m := bits], asg[m := bits], k + 1, bits)
  {
    var m := rec[k];
    assert Freqs(t[m := t[m].(dl := bits)]) == w;
  }

  lemma SkipOne(t: seq<CtData>, w: seq<nat>, e: nat, leaves: set<nat>, rec: seq<nat>, cur: seq<nat>, asg: seq<nat>,
                k: nat, bits: nat)
    requires Given(t, w, e, leaves, rec, cur, asg, k, bits) && k < |rec| && rec[k] !in leaves
    ensures Given(t, w, e, leaves, rec, cur, asg, k + 1, bits)
  {
  }

  lemma LowerBits(t: seq<CtData>, w: seq<nat>, e: nat, leaves: set<nat>, rec: seq<nat>, cur: seq<nat>, asg: seq<nat>,
                  k: nat, bits: nat, bl: seq<nat>)
    requires Given(t, w, e, leaves, rec, cur, asg, k, bits) && GivenCounts(bl, asg, bits, 0) && bits > 1
    ensures Given(t, w, e, leaves, rec, cur, asg, k, bits - 1) && GivenCounts(bl, asg, bits - 1, bl[bits - 1])
  {
  }

  lemma CountGiven(bl: seq<nat>, asg: seq<nat>, bits: nat, n: nat, m: nat)
    requires GivenCounts(bl, asg, bits, n) && n > 0 && m < |asg| && asg[m] == 0
    ensures GivenCounts(bl, asg[m := bits], bits, n - 1)
  {
    var asg1 := asg[m := bits];
    forall b | 1 <= b <= MAX_BITS
      ensures Count(asg1, b) == Count(asg, b) + if b == bits then 1 else 0
    {
      CountSet(asg, m, bits, b);
    }
  }

  lemma Rebit(w: seq<nat>, cur: seq<nat>, xb: seq<nat>, e: nat, m: nat, bits: nat)
    requires e <= |w| && e == |cur| == |xb| && m < e && bits > 0 && cur[m] > 0
    ensures BitsTotal(w, cur[m := bits], xb, e) == BitsTotal(w, cur, xb, e) + (bits - cur[m]) * w[m]
  {
    BitsTotalSet(w, cur, xb, e, m, bits);
    Gap(w[m], bits, cur[m], xb[m]);
  }

  lemma Gap(w: int, b: int, c: int, x: int)
    ensures w * (b + x) - w * (c + x) == (b - c) * w
  {
  }

  lemma {:induction false} LeafCountMonotone(rec: seq<nat>, leaves: set<nat>, k: nat, m: nat)
    requires k <= m <= |rec|
    ensures LeafCount(rec, leaves, k) <= LeafCount(rec, leaves, m)
  {
    if k < m {
      LeafCountMonotone(rec, leaves, k, m - 1);
    }
  }

  /** The leaves that are still to be given a length. */
  ghost predicate Left(rec: seq<nat>, leaves: set<nat>, k: nat, bl: seq<nat>, bits: nat, n: nat)
  {
    && k <= |rec| && 1 <= bits <= |bl|
    && n + TotalOf(bl, bits - 1) == LeafCount(rec, leaves, |rec|) - LeafCount(rec, leaves, k)
  }

  lemma SomeLeft(rec: seq<nat>, leaves: set<nat>, k: nat, bl: seq<nat>, bits: nat, n: nat)
    requires Left(rec, leaves, k, bl, bits, n) && n > 0
    ensures k < |rec| && Left(rec, leaves, k + 1, bl, bits, if rec[k] in leaves then n - 1 else n)
  {
  }

  /** Gives the next leaf in increasing order of frequency a code of bits bits. */
  method GiveNext(tree: array<CtData>, heap: array<nat>, h0: nat, e: nat, maxCode: nat, bits: nat, n0: nat, opt0: int,
                  ghost bl: seq<nat>, ghost leaves: set<nat>, ghost rec: seq<nat>, ghost w: seq<nat>,
                  ghost xb: seq<nat>, ghost cur0: seq<nat>, ghost asg0: seq<nat>)
    returns (h: nat, n: nat, opt: int, ghost cur: seq<nat>, ghost asg: seq<nat>)
    requires heap.Length == HEAP_SIZE >= h0 && h0 + |rec| >= HEAP_SIZE && Recorded(heap[..], rec)
    requires LeafOrder(rec, leaves, e, maxCode)
    requires Given(tree[..], w, e, leaves, rec, cur0, asg0, HEAP_SIZE - h0, bits) && GivenCounts(bl, asg0, bits, n0)
    requires Left(rec, leaves, HEAP_SIZE - h0, bl, bits, n0) && n0 > 0 && |xb| == e
    modifies tree
    ensures h + 1 == h0 && h + |rec| >= HEAP_SIZE
    ensures Given(tree[..], w, e, leaves, rec, cur, asg, HEAP_SIZE - h, bits) && GivenCounts(bl, asg, bits, n)
    ensures Left(rec, leaves, HEAP_SIZE - h, bl, bits, n) && n <= n0
    ensures e <= |w| && |cur| == e && opt - opt0 == BitsTotal(w, cur, xb, e) - BitsTotal(w, cur0, xb, e)
    ensures OthersKept(old(tree[..]), tree[..], e, leaves)
  {
    hide Left, Given, LeafOrder, Freqs, BitsTotal, OthersKept;
    assert 1 <= bits <= MAX_BITS;
    hide GivenCounts;
    ghost var k := HEAP_SIZE - h0;
    SomeLeft(rec, leaves, k, bl, bits, n0);
    h, n, opt, cur, asg := h0 - 1, n0, opt0, cur0, asg0;
    var m := heap[h];
    assert m == rec[k];
    LeafOrderAt(rec, leaves, e, maxCode, k);
    ghost var t0 := tree[..];
    GivenFacts(t0, w, e, leaves, rec, cur, asg, k, bits);
    KeptAll(t0, e, leaves);
    if m <= maxCode {
      KeptOne(t0, e, leaves, m, t0[m].(dl := bits));
      FreqAt(t0, m);
      GiveOne(t0, w, e, leaves, rec, cur, asg, k, bits);
      CountGiven(bl, asg, bits, n, m);
      Rebit(w, cur, xb, e, m, bits);
      if tree[m].dl != bits {
        opt := opt + (bits - tree[m].dl) * tree[m].fc;
        SetLen(tree, m, bits);
      }
      assert t0[m].dl == bits ==> t0[m := t0[m].(dl := bits)] == t0;
      cur, asg := cur[m := bits], asg[m := bits];
      n := n - 1;
    } else {
      SkipOne(tree[..], w, e, leaves, rec, cur, asg, k, bits);
    }
  }

  lemma GivenFacts(t: seq<CtData>, w: seq<nat>, e: nat, leaves: set<nat>, rec: seq<nat>, cur: seq<nat>, asg: seq<nat>,
                   k: nat, bits: nat)
    requires Given(t, w, e, leaves, rec, cur, asg, k, bits)
    ensures |cur| == |asg| == e <= |t| && Freqs(t) == w && |w| == |t|
    ensures forall s :: 0 <= s < e ==> t[s].dl == cur[s]
    ensures Freqs(t) == w
  {
  }

  /** Every leaf has been given a length. */
  lemma AllGiven(t: seq<CtData>, w: seq<nat>, e: nat, leaves: set<nat>, rec: seq<nat>, cur: seq<nat>, asg: seq<nat>,
                 k: nat, bl: seq<nat>, maxCode: nat)
    requires Given(t, w, e, leaves, rec, cur, asg, k, 1) && GivenCounts(bl, asg, 1, 0) && Left(rec, leaves, k, bl, 1, 0)
    requires LeafOrder(rec, leaves, e, maxCode)
    ensures asg == cur && BlCounts(bl, cur) && Falling(rec, leaves, cur, |rec|)
    ensures Freqs(t) == w && |cur| == e <= |t| && e <= |w|
    ensures forall s :: 0 <= s < e ==> t[s].dl == cur[s] <= MAX_BITS && (cur[s] > 0 <==> s in leaves)
  {
    NoLeafLeft(rec, leaves, k, |rec|);
    forall s | 0 <= s < e
      ensures asg[s] == cur[s]
    {
      if s in leaves {
        var j :| 0 <= j < |rec| && rec[j] == s;
      }
    }
  }

  lemma {:induction false} NoLeafLeft(rec: seq<nat>, leaves: set<nat>, k: nat, m: nat)
    requires k <= m <= |rec| && LeafCount(rec, leaves, k) == LeafCount(rec, leaves, m)
    ensures forall j :: k <= j < m ==> rec[j] !in leaves
  {
    if k < m {
      LeafCountMonotone(rec, leaves, k, m - 1);
      NoLeafLeft(rec, leaves, k, m - 1);
    }
  }

  /** Recomputes all lengths, scanning in increasing frequency. */
  method Reassign(tree: array<CtData>, heap: array<nat>, blCount: array<nat>, e: nat, maxCode: nat, max: nat, opt0: int,
                  ghost leaves: set<nat>, ghost rec: seq<nat>, ghost w: seq<nat>, ghost xb: seq<nat>,
                  ghost cur0: seq<nat>)
    returns (opt: int, ghost cur: seq<nat>)
    requires blCount != heap && blCount.Length == MAX_BITS + 1 && 1 <= max <= MAX_BITS
    requires heap.Length == HEAP_SIZE && |rec| <= HEAP_SIZE && Recorded(heap[..], rec)
    requires LeafOrder(rec, leaves, e, maxCode)
    requires Given(tree[..], w, e, leaves, rec, cur0, Zeros(e), 0, max) && |xb| == e
    requires blCount[0] == 0 && forall b :: max < b <= MAX_BITS ==> blCount[b] == 0
    requires TotalOf(blCount[..], max) == LeafCount(rec, leaves, |rec|)
    modifies tree
    ensures Freqs(tree[..]) == w && |cur| == e <= tree.Length && e <= |w|
    ensures forall s :: 0 <= s < e ==> tree[s].dl == cur[s] <= MAX_BITS && (cur[s] > 0 <==> s in leaves)
    ensures BlCounts(blCount[..], cur) && Falling(rec, leaves, cur, |rec|)
    ensures opt - opt0 == BitsTotal(w, cur, xb, e) - BitsTotal(w, cur0, xb, e)
    ensures OthersKept(old(tree[..]), tree[..], e, leaves)
  {
    hide BlCounts, Falling, TotalOf, BitsTotal, Freqs, OthersKept, GivenCounts, Left, Given, LeafOrder, Recorded,
         LeafCount, Zeros;
    ghost var bl, t0 := blCount[..], tree[..];
    GivenFacts(t0, w, e, leaves, rec, cur0, Zeros(e), 0, max);
    KeptAll(t0, e, leaves);
    var bits, h := max, HEAP_SIZE;
    var n := blCount[bits];
    opt, cur := opt0, cur0;
    ghost var asg := Zeros(e);
    NothingGiven(bl, e, max);
    AllLeft(bl, rec, leaves, max);
    while true
      invariant 1 <= bits <= max && h <= HEAP_SIZE <= h + |rec|
      invariant Given(tree[..], w, e, leaves, rec, cur, asg, HEAP_SIZE - h, bits) && GivenCounts(bl, asg, bits, n)
      invariant Left(rec, leaves, HEAP_SIZE - h, bl, bits, n)
      invariant |cur| == e <= |w| && opt - opt0 == BitsTotal(w, cur, xb, e) - BitsTotal(w, cur0, xb, e)
      invariant OthersKept(t0, tree[..], e, leaves)
      decreases bits, h
    {
      if n != 0 {
        ghost var t1 := tree[..];
        h, n, opt, cur, asg := GiveNext(tree, heap, h, e, maxCode, bits, n, opt, bl, leaves, rec, w, xb, cur, asg);
        KeptBoth(t0, t1, tree[..], e, leaves);
      } else {
        if bits == 1 {
          break;
        }
        LowerBits(tree[..], w, e, leaves, rec, cur, asg, HEAP_SIZE - h, bits, bl);
        NextLeft(rec, leaves, HEAP_SIZE - h, bl, bits);
        bits := bits - 1;
        n := blCount[bits];
      }
    }
    AllGiven(tree[..], w, e, leaves, rec, cur, asg, HEAP_SIZE - h, bl, maxCode);
  }

  lemma NothingGiven(bl: seq<nat>, e: nat, max: nat)
    requires |bl| == MAX_BITS + 1 && bl[0] == 0 && 1 <= max <= MAX_BITS && forall b :: max < b <= MAX_BITS ==>
             bl[b] == 0
    ensures GivenCounts(bl, Zeros(e), max, bl[max])
  {
    var asg := Zeros(e);
    forall b | 1 <= b <= MAX_BITS
      ensures Count(asg, b) == 0
    {
      CountZero(asg, b);
    }
  }

  lemma AllLeft(bl: seq<nat>, rec: seq<nat>, leaves: set<nat>, max: nat)
    requires |bl| == MAX_BITS + 1 && 1 <= max <= MAX_BITS && TotalOf(bl, max) == LeafCount(rec, leaves, |rec|)
    ensures Left(rec, leaves, 0, bl, max, bl[max])
  {
  }

  lemma NextLeft(rec: seq<nat>, leaves: set<nat>, k: nat, bl: seq<nat>, bits: nat)
    requires Left(rec, leaves, k, bl, bits, 0) && bits > 1
    ensures Left(rec, leaves, k, bl, bits - 1, bl[bits - 1])
  {
  }

  // ---------- gen_bitlen ----------

  /** The lengths in the tree: nonzero for exactly the leaves, and at most max. */
  ghost predicate CodeLengths(t: seq<CtData>, e: nat, leaves: set<nat>, lens: seq<nat>, max: nat)
  {
    && |lens| == e <= |t|
    && forall s :: 0 <= s < e ==> t[s].dl == lens[s] <= max && (lens[s] > 0 <==> s in leaves)
  }

  /** No symbol has a longer code than a less frequent one. */
  ghost predicate Fair(leaves: set<nat>, w: seq<nat>, lens: seq<nat>)
  {
    forall x, y :: x in leaves && y in leaves && x < |w| && y < |w| && x < |lens| && y < |lens| && w[x] < w[y] ==>
        lens[x] >= lens[y]
  }

  lemma RecordedOrder(e: nat, leaves: set<nat>, rec: seq<nat>, w: seq<nat>, maxCode: nat)
    requires IsTree(e, leaves, rec, w) && maxCode < e && forall x :: x in leaves ==> x <= maxCode
    ensures LeafOrder(rec, leaves, e, maxCode)
  {
    forall x | x in leaves
      ensures exists j :: 0 <= j < |rec| && rec[j] == x
    {
      var j := LeafRecorded(e, leaves, rec, w, x);
    }
    assert forall k :: 0 <= k < |rec| ==> IsNode(e, leaves, k / 2, rec[k]);
  }

  /** The first pass leaves the cut-off depths of the leaves. */
  lemma Visited(t: seq<CtData>, t0: seq<CtData>, w: seq<nat>, e: nat, leaves: set<nat>, rec: seq<nat>, l: seq<nat>,
                lens: seq<nat>, max: nat)
    requires Visiting(t, w, e, leaves, rec, l, lens, 0) && Above(e, leaves, rec, w, l, max)
    requires OthersKept(t0, t, e, leaves) && forall s :: 0 <= s < e && s !in leaves ==> t0[s].dl == 0
    ensures LeafLengths(e, leaves, l, lens, max) && CodeLengths(t, e, leaves, lens, max)
  {
    forall s | 0 <= s < e
      ensures lens[s] <= max && t[s].dl == lens[s] && if s in leaves then lens[s] == l[s] > 0 else lens[s] == 0
    {
      if s in leaves {
        var j := LeafRecorded(e, leaves, rec, w, s);
        FathersUnder(e, leaves, rec, w, l, max, j);
      }
    }
  }

  lemma LeavesAreRoots(e: nat, leaves: set<nat>, rec: seq<nat>)
    requires forall x :: x in leaves ==> x < e
    ensures Roots(e, leaves, rec, 0, leaves)
  {
  }

  /** What the lengths after the first pass amount to. */
  lemma FirstPassTotals(e: nat, leaves: set<nat>, rec: seq<nat>, w: seq<nat>, l: seq<nat>, lens: seq<nat>, max: nat)
    requires Above(e, leaves, rec, w, l, max) && LeafLengths(e, leaves, l, lens, max) && max <= MAX_BITS
    ensures var cut := CutOff(e, l, 0, |rec| / 2, max);
            && Used(lens, max) == Pow2(max) + cut
            && (cut > 0 ==> Count(lens, max) > cut)
            && (cut == 0 ==> Admissible(leaves, l, max) && Cost(leaves, w, l, |w|) == Joined(e, w, |rec| / 2))
  {
    LeavesAreRoots(e, leaves, rec);
    CutTree(e, leaves, rec, w, l, max, 0, leaves);
    UsedIsKraft(e, leaves, l, lens, max, |l|);
  }

  /** With no code longer than max, filling the max-bit strings fills the 15-bit strings. */
  lemma {:induction false} UsedBeyond(lens: seq<nat>, max: nat, m: nat)
    requires 1 <= max <= m && forall i :: 0 <= i < |lens| ==> lens[i] <= max
    ensures Used(lens, m) == Shl(Used(lens, max), m - max)
  {
    if m > max {
      UsedBeyond(lens, max, m - 1);
      CountZero(lens, m);
    }
  }

  lemma FillsAll(lens: seq<nat>, max: nat)
    requires 1 <= max <= MAX_BITS && (forall i :: 0 <= i < |lens| ==> lens[i] <= max) && Used(lens, max) == Pow2(max)
    ensures Complete(lens)
  {
    UsedBeyond(lens, max, MAX_BITS);
    ShlPow2(max, MAX_BITS - max);
  }

  lemma CostOfLeaves(e: nat, leaves: set<nat>, w: seq<nat>, l: seq<nat>, lens: seq<nat>, max: nat, n: nat)
    requires LeafLengths(e, leaves, l, lens, max) && |l| == |w| && e <= n <= |w|
    ensures Cost(leaves, w, l, n) == Cost(leaves, w, lens, e)
    decreases n
  {
    if n > e {
      CostOfLeaves(e, leaves, w, l, lens, max, n - 1);
    } else {
      CostSame(leaves, leaves, w, w, l, lens, e);
    }
  }

  /** If nothing was cut off, the lengths are those of a code of least cost. */
  lemma Optimal(e: nat, leaves: set<nat>, rec: seq<nat>, w: seq<nat>, l: seq<nat>, lens: seq<nat>, max: nat)
    requires Above(e, leaves, rec, w, l, max) && LeafLengths(e, leaves, l, lens, max) && max <= MAX_BITS
    requires CutOff(e, l, 0, |rec| / 2, max) == 0 && LowerBound(leaves, w, Joined(e, w, |rec| / 2))
    ensures LowerBound(leaves, w, Cost(leaves, w, lens, e)) && Fair(leaves, w, lens)
  {
    FirstPassTotals(e, leaves, rec, w, l, lens, max);
    CostOfLeaves(e, leaves, w, l, lens, max, |w|);
    forall x, y | x in leaves && y in leaves && x < |w| && y < |w| && x < |lens| && y < |lens| && w[x] < w[y]
      ensures lens[x] >= lens[y]
    {
      LighterIsDeeper(leaves, w, l, max, x, y);
    }
  }

  /** The counts the repair starts from. */
  lemma RepairStarts(bl: seq<nat>, e: nat, leaves: set<nat>, rec: seq<nat>, w: seq<nat>, l: seq<nat>, lens: seq<nat>,
                     max: nat)
    requires Above(e, leaves, rec, w, l, max) && LeafLengths(e, leaves, l, lens, max) && max <= MAX_BITS
    requires BlCounts(bl, lens) && e <= Pow2(max)
    ensures Overfull(bl, max, 2 * CutOff(e, l, 0, |rec| / 2, max))
  {
    FirstPassTotals(e, leaves, rec, w, l, lens, max);
    CountsAgree(bl, lens, max);
    BelowAtMost(lens, max + 1);
    forall b | max < b <= MAX_BITS
      ensures bl[b] == 0
    {
      CountZero(lens, b);
    }
  }

  // ---------- the number of codes ----------

  /** The lengths of the leaves among the first k records. */
  ghost function Restricted(rec: seq<nat>, leaves: set<nat>, lens: seq<nat>, k: nat): (z: seq<nat>)
    requires k <= |rec| && forall j :: 0 <= j < |rec| && rec[j] in leaves ==> rec[j] < |lens|
    ensures |z| == |lens|
  {
    if k == 0 then Zeros(|lens|)
    else
      var z := Restricted(rec, leaves, lens, k - 1);
      if rec[k - 1] in leaves then z[rec[k - 1] := lens[rec[k - 1]]] else z
  }

  lemma {:induction false} BelowSet(lens: seq<nat>, s: nat, b: nat, m: nat)
    requires s < |lens| && lens[s] == 0 && 1 <= b < m
    ensures Below(lens[s := b], m) == Below(lens, m) + 1
    decreases m
  {
    CountSet(lens, s, b, m - 1);
    if b < m - 1 {
      BelowSet(lens, s, b, m - 1);
    } else {
      BelowUnset(lens, s, b, m - 1);
    }
  }

  lemma {:induction false} BelowUnset(lens: seq<nat>, s: nat, b: nat, m: nat)
    requires s < |lens| && lens[s] == 0 && b >= m
    ensures Below(lens[s := b], m) == Below(lens, m)
  {
    if m > 1 {
      CountSet(lens, s, b, m - 1);
      BelowUnset(lens, s, b, m - 1);
    }
  }

  lemma {:induction false} RestrictedCount(rec: seq<nat>, leaves: set<nat>, lens: seq<nat>, k: nat, m: nat)
    requires k <= |rec| && forall j :: 0 <= j < |rec| && rec[j] in leaves ==> rec[j] < |lens| && 1 <= lens[rec[j]] < m
    requires forall i, j :: 0 <= i < j < |rec| ==> rec[i] != rec[j]
    ensures Below(Restricted(rec, leaves, lens, k), m) == LeafCount(rec, leaves, k)
    ensures forall j :: 0 <= j < k && rec[j] in leaves ==> Restricted(rec, leaves, lens, k)[rec[j]] == lens[rec[j]]
    ensures forall j :: k <= j < |rec| && rec[j] in leaves ==> Restricted(rec, leaves, lens, k)[rec[j]] == 0
    ensures forall s :: 0 <= s < |lens| && s !in leaves ==> Restricted(rec, leaves, lens, k)[s] == 0
  {
    if k == 0 {
      NoneOf(|lens|, m);
    } else {
      RestrictedCount(rec, leaves, lens, k - 1, m);
      if rec[k - 1] in leaves {
        BelowSet(Restricted(rec, leaves, lens, k - 1), rec[k - 1], lens[rec[k - 1]], m);
      }
    }
  }

  lemma {:induction false} NoneOf(n: nat, m: nat)
    ensures Below(Zeros(n), m) == 0
  {
    if m > 1 {
      NoneOf(n, m - 1);
      CountZero(Zeros(n), m - 1);
    }
  }

  /** There are as many codes as recorded leaves. */
  lemma CodesAreLeaves(rec: seq<nat>, leaves: set<nat>, lens: seq<nat>, e: nat, maxCode: nat, max: nat)
    requires LeafOrder(rec, leaves, e, maxCode) && |lens| == e
    requires forall s :: 0 <= s < e ==> lens[s] <= max && (lens[s] > 0 <==> s in leaves)
    ensures Below(lens, max + 1) == LeafCount(rec, leaves, |rec|)
  {
    RestrictedCount(rec, leaves, lens, |rec|, max + 1);
    var z := Restricted(rec, leaves, lens, |rec|);
    forall s | 0 <= s < e
      ensures z[s] == lens[s]
    {
      if s in leaves {
        var j :| 0 <= j < |rec| && rec[j] == s;
      }
    }
    assert z == lens;
  }

  lemma MaybeFair(rec: seq<nat>, leaves: set<nat>, w: seq<nat>, lens: seq<nat>, e: nat, maxCode: nat)
    requires Falling(rec, leaves, lens, |rec|) && Rising(rec, w) && LeafOrder(rec, leaves, e, maxCode)
    ensures Fair(leaves, w, lens)
  {
    forall x, y | x in leaves && y in leaves && x < |w| && y < |w| && x < |lens| && y < |lens| && w[x] < w[y]
      ensures lens[x] >= lens[y]
    {
      var i :| 0 <= i < |rec| && rec[i] == x;
      var j :| 0 <= j < |rec| && rec[j] == y;
    }
  }

  lemma Given0(t: seq<CtData>, w: seq<nat>, e: nat, leaves: set<nat>, rec: seq<nat>, lens: seq<nat>, max: nat,
               maxCode: nat)
    requires Freqs(t) == w && CodeLengths(t, e, leaves, lens, max) && LeafOrder(rec, leaves, e, maxCode)
    ensures Given(t, w, e, leaves, rec, lens, Zeros(e), 0, max)
  {
  }

  /** The lengths after the repair fill the room exactly. */
  lemma Repaired(bl: seq<nat>, lens: seq<nat>, max: nat)
    requires Overfull(bl, max, 0) && BlCounts(bl, lens)
    requires forall i :: 0 <= i < |lens| ==> 0 <= lens[i] <= MAX_BITS
    ensures Complete(lens) && forall i :: 0 <= i < |lens| ==> lens[i] <= max
  {
    forall i | 0 <= i < |lens|
      ensures lens[i] <= max
    {
      CountPositive(lens, i);
    }
    CountsAgree(bl, lens, max);
    FillsAll(lens, max);
  }

  lemma OverfullFacts(bl: seq<nat>, max: nat, overflow: int)
    requires Overfull(bl, max, overflow)
    ensures bl[0] == 0 && |bl| == MAX_BITS + 1 && 1 <= max <= MAX_BITS && forall b :: max < b <= MAX_BITS ==> bl[b] == 0
  {
  }

  lemma LengthsKnown(t: seq<CtData>, e: nat, leaves: set<nat>, lens: seq<nat>, max: nat)
    requires CodeLengths(t, e, leaves, lens, max)
    ensures |lens| == e <= |t| && forall s :: 0 <= s < e ==> lens[s] <= max && (lens[s] > 0 <==> s in leaves)
  {
  }

  lemma NewLengths(t: seq<CtData>, e: nat, leaves: set<nat>, lens: seq<nat>, max: nat, bl: seq<nat>)
    requires |lens| == e <= |t| && Overfull(bl, max, 0) && BlCounts(bl, lens)
    requires forall s :: 0 <= s < e ==> t[s].dl == lens[s] <= MAX_BITS && (lens[s] > 0 <==> s in leaves)
    ensures CodeLengths(t, e, leaves, lens, max) && Complete(lens)
  {
    Repaired(bl, lens, max);
  }

  /** Moves the overlong codes up, and gives the new lengths out in order of frequency. */
  method RepairAll(tree: array<CtData>, heap: array<nat>, blCount: array<nat>, e: nat, maxCode: nat, max: nat,
                   overflow: nat, opt0: int, ghost leaves: set<nat>, ghost rec: seq<nat>, ghost w: seq<nat>,
                   ghost xb: seq<nat>, ghost lens0: seq<nat>)
    returns (opt: int, ghost lens: seq<nat>)
    requires blCount != heap && Overfull(blCount[..], max, overflow) && Freqs(tree[..]) == w
    requires CodeLengths(tree[..], e, leaves, lens0, max) && LeafOrder(rec, leaves, e, maxCode)
    requires Recorded(heap[..], rec) && Rising(rec, w) && |xb| == e
    requires TotalOf(blCount[..], max) == LeafCount(rec, leaves, |rec|)
    modifies tree, blCount
    ensures Freqs(tree[..]) == w
    ensures CodeLengths(tree[..], e, leaves, lens, max) && Complete(lens) && BlCounts(blCount[..], lens)
    ensures Fair(leaves, w, lens)
    ensures |lens| == |lens0| == e <= |w| && opt - opt0 == BitsTotal(w, lens, xb, e) - BitsTotal(w, lens0, xb, e)
    ensures OthersKept(old(tree[..]), tree[..], e, leaves)
  {
    hide BlCounts, Freqs, OthersKept, CodeLengths, Used, Rising, LeafOrder, Overfull, Given, Falling, Fair, TotalOf,
         LeafCount;
    Given0(tree[..], w, e, leaves, rec, lens0, max, maxCode);
    LengthsKnown(tree[..], e, leaves, lens0, max);
    OverfullFacts(blCount[..], max, overflow);
    Repair(blCount, max, overflow);
    OverfullFacts(blCount[..], max, 0);
    opt, lens := Reassign(tree, heap, blCount, e, maxCode, max, opt0, leaves, rec, w, xb, lens0);
    NewLengths(tree[..], e, leaves, lens, max, blCount[..]);
    MaybeFair(rec, leaves, w, lens, e, maxCode);
  }

  /** gen_bitlen: the code lengths of all leaves, in the tree and counted in blCount. */
  method GenBitlen(tree: array<CtData>, heap: array<nat>, blCount: array<nat>, e: nat, maxCode: nat, max: nat,
                   heapMax: nat, extra: seq<nat>, base: nat, slens: seq<nat>, sums0: Sums, ghost leaves: set<nat>,
                   ghost rec: seq<nat>, ghost xb: seq<nat>)
    returns (sums: Sums, ghost lens: seq<nat>)
    requires blCount != heap && blCount.Length == MAX_BITS + 1 && 1 <= max <= MAX_BITS && e <= Pow2(max)
    requires Listed(heap[..], heapMax, tree[..], e, leaves, rec)
    requires forall s: nat :: s < e && s !in leaves ==> s < tree.Length && tree[s].dl == 0
    requires maxCode < e && forall x :: x in leaves ==> x <= maxCode
    requires |xb| == e && XBitsOf(extra, base, xb) && (slens == [] || |slens| >= e)
    modifies tree, blCount
    ensures Freqs(tree[..]) == old(Freqs(tree[..]))
    ensures CodeLengths(tree[..], e, leaves, lens, max) && Complete(lens) && BlCounts(blCount[..], lens)
    ensures Added(sums0, sums, Freqs(tree[..]), lens, slens, xb, e)
    ensures Fair(leaves, Freqs(tree[..]), lens)
    ensures e <= tree.Length && |lens| == e
    ensures !Deep(e, leaves, rec, max) ==> LowerBound(leaves, Freqs(tree[..]), Cost(leaves, Freqs(tree[..]), lens, e))
    ensures OthersKept(old(tree[..]), tree[..], e, leaves)
  {
    hide BlCounts, Added, Visiting, LowerBound, Joined, Freqs, CutOff, OthersKept, LeafLengths, CodeLengths, Used,
         IsTree, IsForest, Rising, LeafOrder, Overfull, XBitsOf, Given, Falling, Fair, Lengths, TotalOf, LeafCount,
         Above, Complete, Deep;
    ghost var w, t0 := Freqs(tree[..]), tree[..];
    ghost var l := Depths(e, leaves, rec, w, max);
    var overflow;
    overflow, sums, lens := FirstPass(tree, heap, blCount, e, maxCode, max, heapMax, extra, base, slens, sums0,
        leaves, rec, l, xb);
    Visited(tree[..], t0, w, e, leaves, rec, l, lens, max);
    LengthsKnown(tree[..], e, leaves, lens, max);
    CutIfDeep(e, leaves, rec, w, l, max);
    if overflow == 0 {
      FirstPassFills(e, leaves, rec, w, l, lens, max);
      Optimal(e, leaves, rec, w, l, lens, max);
    } else {
      RepairStarts(blCount[..], e, leaves, rec, w, l, lens, max);
      RecordedOrder(e, leaves, rec, w, maxCode);
      CountsAgree(blCount[..], lens, max);
      CodesAreLeaves(rec, leaves, lens, e, maxCode, max);
      ghost var t1, lens1, sums1 := tree[..], lens, sums;
      var opt;
      opt, lens := RepairAll(tree, heap, blCount, e, maxCode, max, overflow, sums.opt, leaves, rec, w, xb, lens);
      KeptBoth(t0, t1, tree[..], e, leaves);
      LengthsKnown(tree[..], e, leaves, lens, max);
      sums := sums.(opt := opt);
      AddedAgain(sums0, sums1, sums, w, lens1, lens, slens, xb, e, leaves);
    }
  }

  lemma FirstPassFills(e: nat, leaves: set<nat>, rec: seq<nat>, w: seq<nat>, l: seq<nat>, lens: seq<nat>, max: nat)
    requires Above(e, leaves, rec, w, l, max) && LeafLengths(e, leaves, l, lens, max) && max <= MAX_BITS
    requires CutOff(e, l, 0, |rec| / 2, max) == 0
    ensures Complete(lens)
  {
    FirstPassTotals(e, leaves, rec, w, l, lens, max);
    FillsAll(lens, max);
  }

  lemma AddedAgain(at0: Sums, at1: Sums, at2: Sums, w: seq<nat>, lens1: seq<nat>, lens2: seq<nat>, slens: seq<nat>,
                   xb: seq<nat>, e: nat, leaves: set<nat>)
    requires Added(at0, at1, w, lens1, slens, xb, e) && |lens2| == e && at2.stat == at1.stat
    requires at2.opt - at1.opt == BitsTotal(w, lens2, xb, e) - BitsTotal(w, lens1, xb, e)
    requires forall s :: 0 <= s < e ==> (lens1[s] > 0 <==> s in leaves) && (lens2[s] > 0 <==> s in leaves)
    ensures Added(at0, at2, w, lens2, slens, xb, e)
  {
    if slens != [] {
      StaticTotalSame(w, lens1, lens2, slens, xb, e);
    }
  }
}
