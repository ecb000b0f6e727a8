/**
 The forest that build_tree (trees.c) joins into one tree, and the lengths gen_bitlen reads off it.

 Symbols are nodes below e, the i-th joined node is e + i. rec lists the nodes in the order in which
 they were taken from the queue: rec[2i] and rec[2i + 1] are the sons of e + i.
 */
module Forest {
  import opened Shift
  import opened Huffman
  import opened Canonical

  function Father(e: nat, k: nat): nat
  {
    e + k / 2
  }

  /** x is a leaf or one of the first i joined nodes. */
  ghost predicate IsNode(e: nat, leaves: set<nat>, i: nat, x: nat)
  {
    x in leaves || e <= x < e + i
  }

  /** The roots of the forest after i joins. */
  ghost predicate Roots(e: nat, leaves: set<nat>, rec: seq<nat>, i: nat, act: set<nat>)
    requires 2 * i <= |rec|
  {
    forall x :: x in act <==> IsNode(e, leaves, i, x) && x !in rec[..2 * i]
  }

  /** The weight of the first i joined nodes. */
  ghost function Joined(e: nat, w: seq<nat>, i: nat): nat
    requires e + i <= |w|
  {
    if i == 0 then 0 else Joined(e, w, i - 1) + w[e + i - 1]
  }

  ghost predicate SumOfSons(e: nat, rec: seq<nat>, w: seq<nat>, x: int)
  {
    && e <= x < |w| && 2 * (x - e) + 1 < |rec|
    && rec[2 * (x - e)] < |w| && rec[2 * (x - e) + 1] < |w|
    && w[x] == w[rec[2 * (x - e)]] + w[rec[2 * (x - e) + 1]]
  }

  /** The records describe a forest of binary trees over the leaves. */
  ghost predicate IsForest(e: nat, leaves: set<nat>, rec: seq<nat>, w: seq<nat>)
  {
    && |rec| % 2 == 0 && e + |rec| / 2 <= |w| && (forall x :: x in leaves ==> x < e)
    && (forall k :: 0 <= k < |rec| ==> IsNode(e, leaves, k / 2, rec[k]))
    && (forall k, m :: 0 <= k < m < |rec| ==> rec[k] != rec[m])
    && (forall x :: e <= x < e + |rec| / 2 ==> SumOfSons(e, rec, w, x))
  }

  /** Nodes are recorded in non-decreasing order of weight. */
  ghost predicate Rising(rec: seq<nat>, w: seq<nat>)
  {
    && (forall k :: 0 <= k < |rec| ==> rec[k] < |w|)
    && forall k, m :: 0 <= k <= m < |rec| ==> w[rec[k]] <= w[rec[m]]
  }

  /** No root is lighter than a recorded node. */
  ghost predicate Heavier(act: set<nat>, rec: seq<nat>, w: seq<nat>)
  {
    && (forall k :: 0 <= k < |rec| ==> rec[k] < |w|)
    && forall x :: x in act ==> x < |w| && forall k :: 0 <= k < |rec| ==> w[rec[k]] <= w[x]
  }

  /** Any bound for the roots, plus the weight joined so far, is a bound for the leaves. */
  ghost predicate Reduces(e: nat, leaves: set<nat>, w: seq<nat>, i: nat, act: set<nat>)
    requires e + i <= |w|
  {
    forall b: int :: LowerBound(act, w, b) ==> LowerBound(leaves, w, b + Joined(e, w, i))
  }

  ghost predicate Joining(e: nat, leaves: set<nat>, rec: seq<nat>, w: seq<nat>, act: set<nat>)
  {
    && IsForest(e, leaves, rec, w)
    && Roots(e, leaves, rec, |rec| / 2, act)
    && Rising(rec, w)
    && Heavier(act, rec, w)
    && Reduces(e, leaves, w, |rec| / 2, act)
  }

  lemma {:induction false} JoinedSame(e: nat, w: seq<nat>, w1: seq<nat>, i: nat)
    requires e + i <= |w| && e + i <= |w1| && forall x :: e <= x < e + i ==> w[x] == w1[x]
    ensures Joined(e, w, i) == Joined(e, w1, i)
  {
    if i > 0 {
      JoinedSame(e, w, w1, i - 1);
    }
  }

  lemma Begin(e: nat, leaves: set<nat>, w: seq<nat>)
    requires e <= |w| && forall x :: x in leaves ==> x < e
    ensures Joining(e, leaves, [], w, leaves)
  {
    forall b: int | LowerBound(leaves, w, b)
      ensures LowerBound(leaves, w, b + Joined(e, w, 0))
    {
    }
  }

  lemma JoinForest(e: nat, leaves: set<nat>, rec: seq<nat>, w: seq<nat>, act: set<nat>, a: nat, b: nat)
    requires IsForest(e, leaves, rec, w) && Roots(e, leaves, rec, |rec| / 2, act)
    requires a in act && b in act && a != b && e + |rec| / 2 < |w|
    ensures var d := e + |rec| / 2;
            IsForest(e, leaves, rec + [a, b], w[d := w[a] + w[b]])
            && Roots(e, leaves, rec + [a, b], |rec| / 2 + 1, act - {a, b} + {d})
  {
    var i := |rec| / 2;
    var d := e + i;
    var rec1, w1 := rec + [a, b], w[d := w[a] + w[b]];
    assert |rec1| / 2 == i + 1;
    assert rec[..2 * i] == rec && rec1[..2 * (i + 1)] == rec1;
    forall k | 0 <= k < |rec1|
      ensures IsNode(e, leaves, k / 2, rec1[k])
    {
      if k < |rec| {
        assert rec1[k] == rec[k];
      }
    }
    forall x | e <= x < e + |rec1| / 2
      ensures SumOfSons(e, rec1, w1, x)
    {
      SumsKept(e, leaves, rec, w, act, a, b, x);
    }
  }

  lemma SumsKept(e: nat, leaves: set<nat>, rec: seq<nat>, w: seq<nat>, act: set<nat>, a: nat, b: nat, x: nat)
    requires IsForest(e, leaves, rec, w) && Roots(e, leaves, rec, |rec| / 2, act)
    requires a in act && b in act && e + |rec| / 2 < |w| && e <= x <= e + |rec| / 2
    ensures var d := e + |rec| / 2;
            SumOfSons(e, rec + [a, b], w[d := w[a] + w[b]], x)
  {
    var j := x - e;
    if j < |rec| / 2 {
      assert SumOfSons(e, rec, w, x);
      assert IsNode(e, leaves, (2 * j) / 2, rec[2 * j]) && IsNode(e, leaves, (2 * j + 1) / 2, rec[2 * j + 1]);
    }
  }

  lemma JoinReduces(e: nat, leaves: set<nat>, w: seq<nat>, i: nat, act: set<nat>, a: nat, b: nat)
    requires e + i < |w| && Reduces(e, leaves, w, i, act) && TwoLightest(act, w, a, b)
    requires e + i !in act && forall x :: x in leaves ==> x < e
    ensures var d := e + i;
            Reduces(e, leaves, w[d := w[a] + w[b]], i + 1, act - {a, b} + {d})
  {
    var d := e + i;
    var w1, act1 := w[d := w[a] + w[b]], act - {a, b} + {d};
    forall bound: int | LowerBound(act1, w1, bound)
      ensures LowerBound(leaves, w1, bound + Joined(e, w1, i + 1))
    {
      Huffman.Join(act, w, a, b, d, bound);
      JoinedSame(e, w, w1, i);
      BoundSame(leaves, w, w1, bound + w[a] + w[b] + Joined(e, w, i));
    }
  }

  /** Joining the two lightest roots keeps everything. */
  lemma JoinStep(e: nat, leaves: set<nat>, rec: seq<nat>, w: seq<nat>, act: set<nat>, a: nat, b: nat)
    requires Joining(e, leaves, rec, w, act) && TwoLightest(act, w, a, b) && e + |rec| / 2 < |w|
    ensures var d := e + |rec| / 2;
            d !in act && Joining(e, leaves, rec + [a, b], w[d := w[a] + w[b]], act - {a, b} + {d})
  {
    hide IsForest, Roots, Rising, Heavier, Reduces, TwoLightest;
    var i := |rec| / 2;
    NewNode(e, leaves, rec, w, act, a, b);
    JoinForest(e, leaves, rec, w, act, a, b);
    JoinReduces(e, leaves, w, i, act, a, b);
    JoinRising(rec, w, act, a, b, e + i);
    assert |rec + [a, b]| / 2 == i + 1;
  }

  lemma NewNode(e: nat, leaves: set<nat>, rec: seq<nat>, w: seq<nat>, act: set<nat>, a: nat, b: nat)
    requires IsForest(e, leaves, rec, w) && Roots(e, leaves, rec, |rec| / 2, act) && TwoLightest(act, w, a, b)
    ensures |rec| % 2 == 0 && a in act && b in act && a != b
    ensures var d := e + |rec| / 2;
            d !in act && (forall k :: 0 <= k < |rec| ==> rec[k] != d) && forall x :: x in leaves ==> x < e
  {
    assert forall k :: 0 <= k < |rec| ==> IsNode(e, leaves, k / 2, rec[k]);
  }

  lemma JoinRising(rec: seq<nat>, w: seq<nat>, act: set<nat>, a: nat, b: nat, d: nat)
    requires Rising(rec, w) && Heavier(act, rec, w) && TwoLightest(act, w, a, b)
    requires d < |w| && d !in act && forall k :: 0 <= k < |rec| ==> rec[k] != d
    ensures var w1 := w[d := w[a] + w[b]];
            Rising(rec + [a, b], w1) && Heavier(act - {a, b} + {d}, rec + [a, b], w1)
  {
    var w1, rec1 := w[d := w[a] + w[b]], rec + [a, b];
    assert forall k :: 0 <= k < |rec| ==> rec1[k] == rec[k] && w1[rec[k]] == w[rec[k]] <= w[a];
    assert forall k :: 0 <= k < |rec1| ==> w1[rec1[k]] <= w1[b];
  }

  // ---------- the finished tree ----------

  /** One root is left: the last joined node. */
  ghost predicate IsTree(e: nat, leaves: set<nat>, rec: seq<nat>, w: seq<nat>)
  {
    && IsForest(e, leaves, rec, w) && |rec| >= 2
    && Roots(e, leaves, rec, |rec| / 2, {e + |rec| / 2 - 1})
  }

  lemma OneRoot(e: nat, leaves: set<nat>, rec: seq<nat>, w: seq<nat>, act: set<nat>, root: nat)
    requires IsForest(e, leaves, rec, w) && |rec| >= 2 && Roots(e, leaves, rec, |rec| / 2, act) && act == {root}
    ensures root == e + |rec| / 2 - 1
  {
    var d := e + |rec| / 2 - 1;
    assert forall k :: 0 <= k < |rec| ==> IsNode(e, leaves, k / 2, rec[k]) && rec[k] != d;
    assert d in act;
  }

  /** Nothing cheaper than the joined weight exists. */
  lemma Bound(e: nat, leaves: set<nat>, rec: seq<nat>, w: seq<nat>, root: nat)
    requires Joining(e, leaves, rec, w, {root})
    ensures LowerBound(leaves, w, Joined(e, w, |rec| / 2))
  {
    assert LowerBound({root}, w, 0);
  }

  /** l is the depth of every node in the tree, but cut off at max. */
  ghost predicate Lengths(e: nat, rec: seq<nat>, l: seq<nat>, max: nat)
  {
    && (forall k :: 0 <= k < |rec| ==> rec[k] < |l| && Father(e, k) < |l|)
    && e + |rec| / 2 <= |l| && (|rec| >= 2 ==> l[e + |rec| / 2 - 1] == 0)
    && (forall k :: 0 <= k < |rec| ==>
          l[rec[k]] == if l[Father(e, k)] + 1 > max then max else l[Father(e, k)] + 1)
  }

  /** The joined nodes from e + i on whose sons are cut off. */
  ghost function CutOff(e: nat, l: seq<nat>, i: nat, n: nat, max: nat): nat
    requires i <= n && e + n <= |l|
    decreases n - i
  {
    if i == n then 0 else CutOff(e, l, i + 1, n, max) + if l[e + i] == max then 1 else 0
  }

  /** How many of the first n nodes have length b. */
  ghost function Level(act: set<nat>, l: seq<nat>, b: nat, n: nat): nat
    requires n <= |l|
  {
    if n == 0 then 0 else Level(act, l, b, n - 1) + if n - 1 in act && l[n - 1] == b then 1 else 0
  }

  lemma {:induction false} LevelSame(act: set<nat>, act1: set<nat>, l: seq<nat>, b: nat, n: nat)
    requires n <= |l| && forall x: nat :: x < n ==> (x in act <==> x in act1)
    ensures Level(act, l, b, n) == Level(act1, l, b, n)
  {
    if n > 0 {
      LevelSame(act, act1, l, b, n - 1);
    }
  }

  lemma {:induction false} LevelSplit(act: set<nat>, l: seq<nat>, b: nat, n: nat, x: nat)
    requires n <= |l| && x in act && x < n
    ensures Level(act, l, b, n) == Level(act - {x}, l, b, n) + if l[x] == b then 1 else 0
  {
    if x == n - 1 {
      LevelSame(act, act - {x}, l, b, n - 1);
    } else {
      LevelSplit(act, l, b, n - 1, x);
    }
  }

  ghost predicate Above(e: nat, leaves: set<nat>, rec: seq<nat>, w: seq<nat>, l: seq<nat>, max: nat)
  {
    IsTree(e, leaves, rec, w) && Lengths(e, rec, l, max) && max >= 1 && |l| == |w|
  }

  lemma UnderMax(e: nat, leaves: set<nat>, rec: seq<nat>, w: seq<nat>, l: seq<nat>, max: nat, i: nat, act: set<nat>)
    requires Above(e, leaves, rec, w, l, max) && i <= |rec| / 2 && Roots(e, leaves, rec, i, act)
    ensures Under(act, l, max)
    ensures i < |rec| / 2 ==> l[e + i] <= max
  {
    forall x: nat | IsNode(e, leaves, |rec| / 2, x)
      ensures x < |l| && l[x] <= max
    {
      if x !in rec[..2 * (|rec| / 2)] {
        assert x in {e + |rec| / 2 - 1};
      }
    }
  }

  /** The roots after the i-th join: the sons of e + i are replaced by their father. */
  lemma Rejoin(e: nat, leaves: set<nat>, rec: seq<nat>, w: seq<nat>, i: nat, act: set<nat>)
    requires IsForest(e, leaves, rec, w) && i < |rec| / 2 && Roots(e, leaves, rec, i, act)
    ensures e + i !in act && rec[2 * i] in act && rec[2 * i + 1] in act && rec[2 * i] != rec[2 * i + 1]
    ensures Roots(e, leaves, rec, i + 1, act - {rec[2 * i], rec[2 * i + 1]} + {e + i})
  {
    var m, n := rec[2 * i], rec[2 * i + 1];
    assert rec[..2 * (i + 1)] == rec[..2 * i] + [m, n];
    assert IsNode(e, leaves, (2 * i) / 2, m) && IsNode(e, leaves, (2 * i + 1) / 2, n);
    assert forall k :: 0 <= k < 2 * (i + 1) ==> IsNode(e, leaves, k / 2, rec[k]) && rec[k] != e + i;
    assert forall k :: 0 <= k < 2 * i ==> rec[k] != m && rec[k] != n;
  }

  /** Replacing the node d, one level above the cut or on it, by two sons. */
  lemma SonsKraft(act: set<nat>, l: seq<nat>, max: nat, m: nat, n: nat, d: nat)
    requires m in act && n in act && m != n && d !in act && d < |l| && Under(act, l, max) && l[d] <= max
    requires l[m] == l[n] == if l[d] + 1 > max then max else l[d] + 1
    ensures var act1 := act - {m, n} + {d};
            && Kraft(act, l, max, |l|) == Kraft(act1, l, max, |l|) + (if l[d] == max then 1 else 0)
            && Level(act, l, max, |l|) == Level(act1, l, max, |l|)
                + (if l[d] == max then 1 else if l[d] + 1 == max then 2 else 0)
            && (l[d] == max ==> Level(act1, l, max, |l|) > 0)
  {
    var act1 := act - {m, n} + {d};
    var rest := act - {m} - {n};
    assert act1 - {d} == rest;
    KraftSplit(act, l, max, |l|, m);
    KraftSplit(act - {m}, l, max, |l|, n);
    KraftSplit(act1, l, max, |l|, d);
    LevelSplit(act, l, max, |l|, m);
    LevelSplit(act - {m}, l, max, |l|, n);
    LevelSplit(act1, l, max, |l|, d);
    if l[d] < max {
      assert Pow2(max - l[d]) == 2 * Pow2(max - l[d] - 1);
    } else {
      assert Pow2(0) == 1;
    }
  }

  lemma SonsCost(act: set<nat>, w: seq<nat>, l: seq<nat>, m: nat, n: nat, d: nat)
    requires m in act && n in act && m != n && d !in act && d < |l| == |w| && forall x :: x in act ==> x < |w|
    requires l[m] == l[n] == l[d] + 1 && w[d] == w[m] + w[n]
    ensures Cost(act, w, l, |w|) == Cost(act - {m, n} + {d}, w, l, |w|) + w[d]
  {
    var act1 := act - {m, n} + {d};
    var rest := act - {m} - {n};
    assert act1 - {d} == rest;
    CostSplit(act, w, l, |w|, m);
    CostSplit(act - {m}, w, l, |w|, n);
    CostSplit(act1, w, l, |w|, d);
    Brought(w[m], w[n], l[m]);
  }

  /**
   The lengths cut off at max: they overfill the room by the number of cut-off joined nodes, and otherwise cost the
   joined weight.
   */
  lemma {:induction false} CutTree(e: nat, leaves: set<nat>, rec: seq<nat>, w: seq<nat>, l: seq<nat>, max: nat, i: nat,
                                   act: set<nat>)
    requires Above(e, leaves, rec, w, l, max) && i <= |rec| / 2 && Roots(e, leaves, rec, i, act)
    ensures Under(act, l, max)
    ensures var cut := CutOff(e, l, i, |rec| / 2, max);
            && Kraft(act, l, max, |l|) == Pow2(max) + cut
            && (cut > 0 ==> Level(act, l, max, |l|) > cut)
            && (cut == 0 ==> Cost(act, w, l, |w|) + Joined(e, w, i) == Joined(e, w, |rec| / 2))
    decreases |rec| / 2 - i
  {
    hide Kraft, Cost, Level, Under, IsForest, Lengths, Roots;
    UnderMax(e, leaves, rec, w, l, max, i, act);
    if i == |rec| / 2 {
      CutRoot(e, leaves, rec, w, l, max, act);
    } else {
      var m, n, d := rec[2 * i], rec[2 * i + 1], e + i;
      Rejoin(e, leaves, rec, w, i, act);
      CutTree(e, leaves, rec, w, l, max, i + 1, act - {m, n} + {d});
      SonsOf(e, leaves, rec, w, l, max, i);
      SonsKraft(act, l, max, m, n, d);
      if l[d] < max {
        SonsCost(act, w, l, m, n, d);
      }
    }
  }

  lemma SonsOf(e: nat, leaves: set<nat>, rec: seq<nat>, w: seq<nat>, l: seq<nat>, max: nat, i: nat)
    requires Above(e, leaves, rec, w, l, max) && i < |rec| / 2
    ensures var m, n, d := rec[2 * i], rec[2 * i + 1], e + i;
            && d < |l| && m < |l| && n < |l|
            && l[m] == l[n] == (if l[d] + 1 > max then max else l[d] + 1)
            && w[d] == w[m] + w[n]
  {
    assert SumOfSons(e, rec, w, e + i);
    assert Father(e, 2 * i) == e + i && Father(e, 2 * i + 1) == e + i;
  }

  lemma RootAlone(e: nat, leaves: set<nat>, rec: seq<nat>, w: seq<nat>, l: seq<nat>, max: nat, act: set<nat>)
    requires Above(e, leaves, rec, w, l, max) && Roots(e, leaves, rec, |rec| / 2, act)
    ensures var root := e + |rec| / 2 - 1;
            |rec| >= 2 && act == {root} && |l| == |w| && root < |l| && l[root] == 0
  {
    hide IsForest, IsNode;
  }

  lemma CutRoot(e: nat, leaves: set<nat>, rec: seq<nat>, w: seq<nat>, l: seq<nat>, max: nat, act: set<nat>)
    requires Above(e, leaves, rec, w, l, max) && Roots(e, leaves, rec, |rec| / 2, act)
    ensures Kraft(act, l, max, |l|) == Pow2(max) && Cost(act, w, l, |w|) == 0
  {
    hide Kraft, Cost, Above, Roots;
    var root := e + |rec| / 2 - 1;
    RootAlone(e, leaves, rec, w, l, max, act);
    KraftSplit(act, l, max, |l|, root);
    CostSplit(act, w, l, |w|, root);
    assert act - {root} == {};
    KraftNone(l, max, |l|);
    CostNone(w, l, |w|);
  }

  lemma {:induction false} CostNone(w: seq<nat>, l: seq<nat>, n: nat)
    requires n <= |l| && n <= |w|
    ensures Cost({}, w, l, n) == 0
  {
    if n > 0 {
      CostNone(w, l, n - 1);
    }
  }

  // ---------- code lengths by symbol ----------

  /** The lengths of the leaves, and 0 for every other symbol. */
  ghost predicate LeafLengths(e: nat, leaves: set<nat>, l: seq<nat>, lens: seq<nat>, max: nat)
  {
    && |lens| == e <= |l| && (forall x :: x in leaves ==> x < e)
    && forall s :: 0 <= s < e ==> lens[s] <= max && if s in leaves then lens[s] == l[s] > 0 else lens[s] == 0
  }

  lemma {:induction false} UsedLast(lens: seq<nat>, x: nat, m: nat)
    ensures Used(lens + [x], m) == Used(lens, m) + if 1 <= x <= m then Pow2(m - x) else 0
  {
    CountAppend(lens, [x], m);
    assert Count([x], m) == Count([], m) + if x == m then 1 else 0;
    if m > 1 {
      UsedLast(lens, x, m - 1);
    }
  }

  /** The room used by the codes is the Kraft sum of the leaves. */
  lemma {:induction false} UsedIsKraft(e: nat, leaves: set<nat>, l: seq<nat>, lens: seq<nat>, max: nat, n: nat)
    requires LeafLengths(e, leaves, l, lens, max) && n <= |l|
    ensures n <= e ==> Used(lens[..n], max) == Kraft(leaves, l, max, n)
    ensures n <= e ==> forall b :: 1 <= b ==> Count(lens[..n], b) == Level(leaves, l, b, n)
    ensures n >= e ==> Used(lens, max) == Kraft(leaves, l, max, n)
    ensures n >= e ==> forall b :: 1 <= b ==> Count(lens, b) == Level(leaves, l, b, n)
  {
    assert lens[..e] == lens;
    if n == 0 {
      UsedNone(max);
    } else {
      UsedIsKraft(e, leaves, l, lens, max, n - 1);
      if n <= e {
        assert lens[..n] == lens[..n - 1] + [lens[n - 1]];
        UsedLast(lens[..n - 1], lens[n - 1], max);
      }
    }
  }

  lemma {:induction false} UsedNone(m: nat)
    ensures Used([], m) == 0
  {
    if m > 1 {
      UsedNone(m - 1);
    }
  }
}
