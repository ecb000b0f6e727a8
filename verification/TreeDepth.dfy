/**
 The depths of the leaves of a Huffman tree: when gen_bitlen (trees.c) finds a leaf that is too deep, and how heavy
 the tree must be for that.
 */
module TreeDepth {
  import opened Huffman
  import opened Forest

  // ---------- the exact depths, cut off at max ----------

  /** The length of a son. */
  function Below1(n: nat, max: nat): nat
  {
    if n + 1 > max then max else n + 1
  }

  /** The lengths exist: read off from the root, records last to first. */
  lemma {:induction false} LengthsExist(e: nat, leaves: set<nat>, rec: seq<nat>, w: seq<nat>, max: nat, k: nat)
    returns (l: seq<nat>)
    requires IsTree(e, leaves, rec, w) && k <= |rec|
    ensures |l| == |w| && l[e + |rec| / 2 - 1] == 0
    ensures forall j :: k <= j < |rec| ==>
             rec[j] < |l| && Father(e, j) < |l| && l[rec[j]] == Below1(l[Father(e, j)], max)
    decreases |rec| - k
  {
    if k == |rec| {
      l := seq(|w|, _ => 0);
    } else {
      l := LengthsExist(e, leaves, rec, w, max, k + 1);
      NoLaterFather(e, leaves, rec, w, k);
      l := l[rec[k] := Below1(l[Father(e, k)], max)];
    }
  }

  /** A record is the father of earlier records only, and the root is none. */
  lemma NoLaterFather(e: nat, leaves: set<nat>, rec: seq<nat>, w: seq<nat>, k: nat)
    requires IsTree(e, leaves, rec, w) && k < |rec|
    ensures rec[k] < |w| && Father(e, k) < |w| && rec[k] != e + |rec| / 2 - 1
    ensures forall j :: k <= j < |rec| ==> Father(e, j) != rec[k]
    ensures forall j :: k < j < |rec| ==> rec[j] != rec[k]
  {
    assert IsNode(e, leaves, k / 2, rec[k]);
    assert rec[..2 * (|rec| / 2)] == rec;
    assert e + |rec| / 2 - 1 in {e + |rec| / 2 - 1};
  }

  /** The father of a record is a later record, or the root. */
  lemma FatherLater(e: nat, leaves: set<nat>, rec: seq<nat>, w: seq<nat>, k: nat) returns (j: nat)
    requires IsTree(e, leaves, rec, w) && k < |rec|
    ensures Father(e, k) == e + |rec| / 2 - 1 || (k < j < |rec| && rec[j] == Father(e, k))
  {
    var f := Father(e, k);
    j := 0;
    if f != e + |rec| / 2 - 1 {
      assert rec[..2 * (|rec| / 2)] == rec;
      assert IsNode(e, leaves, |rec| / 2, f) && f !in {e + |rec| / 2 - 1};
      j :| 0 <= j < |rec| && rec[j] == f;
      assert IsNode(e, leaves, j / 2, rec[j]);
    }
  }

  lemma LeafRecorded(e: nat, leaves: set<nat>, rec: seq<nat>, w: seq<nat>, s: nat) returns (j: nat)
    requires IsTree(e, leaves, rec, w) && s in leaves
    ensures j < |rec| && rec[j] == s && s < e
  {
    assert IsNode(e, leaves, |rec| / 2, s) && s !in {e + |rec| / 2 - 1};
    assert rec[..2 * (|rec| / 2)] == rec;
    j :| 0 <= j < |rec| && rec[j] == s;
  }

  lemma Depths(e: nat, leaves: set<nat>, rec: seq<nat>, w: seq<nat>, max: nat) returns (l: seq<nat>)
    requires IsTree(e, leaves, rec, w) && max >= 1
    ensures Above(e, leaves, rec, w, l, max)
  {
    l := LengthsExist(e, leaves, rec, w, max, 0);
  }

  // ---------- the depths themselves ----------

  /** D is the depth of every node in the tree. */
  ghost predicate IsDepth(e: nat, rec: seq<nat>, D: seq<nat>)
  {
    && |rec| >= 2 && e + |rec| / 2 <= |D| && D[e + |rec| / 2 - 1] == 0
    && forall k :: 0 <= k < |rec| ==> rec[k] < |D| && Father(e, k) < |D| && D[rec[k]] == D[Father(e, k)] + 1
  }

  /** Some leaf of the tree lies deeper than max. */
  ghost predicate Deep(e: nat, leaves: set<nat>, rec: seq<nat>, max: nat)
  {
    exists D: seq<nat>, x: nat :: IsDepth(e, rec, D) && x in leaves && x < |D| && D[x] > max
  }

  /** A node is no deeper than there are joined nodes above it. */
  lemma {:induction false} NotCapped(e: nat, leaves: set<nat>, rec: seq<nat>, w: seq<nat>, l: seq<nat>, k: nat)
    requires Above(e, leaves, rec, w, l, |rec|) && k < |rec|
    ensures l[rec[k]] == l[Father(e, k)] + 1 <= |rec| / 2 - k / 2
    decreases |rec| - k
  {
    var j := FatherLater(e, leaves, rec, w, k);
    if Father(e, k) != e + |rec| / 2 - 1 {
      assert IsNode(e, leaves, j / 2, rec[j]);
      NotCapped(e, leaves, rec, w, l, j);
    }
  }

  lemma DepthExists(e: nat, leaves: set<nat>, rec: seq<nat>, w: seq<nat>) returns (D: seq<nat>)
    requires IsTree(e, leaves, rec, w)
    ensures IsDepth(e, rec, D)
  {
    D := Depths(e, leaves, rec, w, |rec|);
    forall k | 0 <= k < |rec|
      ensures D[rec[k]] == D[Father(e, k)] + 1
    {
      NotCapped(e, leaves, rec, w, D, k);
    }
  }

  /** What gen_bitlen computes is the depth, cut off at max. */
  lemma {:induction false} CutDepth(e: nat, leaves: set<nat>, rec: seq<nat>, w: seq<nat>, l: seq<nat>, D: seq<nat>,
                                    max: nat, k: nat)
    requires Above(e, leaves, rec, w, l, max) && IsDepth(e, rec, D) && k < |rec|
    ensures l[rec[k]] == (if D[rec[k]] > max then max else D[rec[k]])
    ensures l[Father(e, k)] == (if D[Father(e, k)] > max then max else D[Father(e, k)])
    decreases |rec| - k
  {
    var j := FatherLater(e, leaves, rec, w, k);
    if Father(e, k) != e + |rec| / 2 - 1 {
      CutDepth(e, leaves, rec, w, l, D, max, j);
    }
  }

  lemma {:induction false} SomeCut(e: nat, l: seq<nat>, i: nat, n: nat, max: nat) returns (j: nat)
    requires i <= n && e + n <= |l| && CutOff(e, l, i, n, max) > 0
    ensures i <= j < n && l[e + j] == max
    decreases n - i
  {
    if l[e + i] == max {
      j := i;
    } else {
      j := SomeCut(e, l, i + 1, n, max);
    }
  }

  lemma {:induction false} CutCounted(e: nat, l: seq<nat>, i: nat, n: nat, max: nat, j: nat)
    requires i <= j < n && e + n <= |l| && l[e + j] == max
    ensures CutOff(e, l, i, n, max) > 0
    decreases n - i
  {
    if i < j {
      CutCounted(e, l, i + 1, n, max, j);
    }
  }

  /** Below a node that is too deep there is a leaf that is. */
  lemma {:induction false} LeafBelow(e: nat, leaves: set<nat>, rec: seq<nat>, w: seq<nat>, D: seq<nat>, max: nat,
                                     k: nat)
    requires IsTree(e, leaves, rec, w) && IsDepth(e, rec, D) && k < |rec| && D[rec[k]] > max
    ensures exists x: nat :: x in leaves && x < |D| && D[x] > max
    decreases k
  {
    assert IsNode(e, leaves, k / 2, rec[k]);
    if rec[k] !in leaves {
      var i := rec[k] - e;
      assert Father(e, 2 * i) == rec[k];
      LeafBelow(e, leaves, rec, w, D, max, 2 * i);
    }
  }

  /** gen_bitlen cuts off joined nodes if and only if some leaf lies deeper than max. */
  lemma CutIfDeep(e: nat, leaves: set<nat>, rec: seq<nat>, w: seq<nat>, l: seq<nat>, max: nat)
    requires Above(e, leaves, rec, w, l, max)
    ensures CutOff(e, l, 0, |rec| / 2, max) > 0 <==> Deep(e, leaves, rec, max)
  {
    hide CutOff;
    if CutOff(e, l, 0, |rec| / 2, max) > 0 {
      var D := DepthExists(e, leaves, rec, w);
      var j := SomeCut(e, l, 0, |rec| / 2, max);
      assert Father(e, 2 * j) == e + j;
      CutDepth(e, leaves, rec, w, l, D, max, 2 * j);
      LeafBelow(e, leaves, rec, w, D, max, 2 * j);
    }
    if Deep(e, leaves, rec, max) {
      var D: seq<nat>, x: nat :| IsDepth(e, rec, D) && x in leaves && x < |D| && D[x] > max;
      var k := LeafRecorded(e, leaves, rec, w, x);
      CutDepth(e, leaves, rec, w, l, D, max, k);
      CutCounted(e, l, 0, |rec| / 2, max, k / 2);
    }
  }

  // ---------- a deep tree is heavy ----------

  function Fib(n: nat): nat
  {
    if n < 2 then n else Fib(n - 1) + Fib(n - 2)
  }

  lemma {:induction false} FibGrows(m: nat, n: nat)
    requires m <= n
    ensures Fib(m) <= Fib(n)
    decreases n
  {
    if m < n {
      FibGrows(m, n - 1);
    }
  }

  /** The weight of a father. */
  lemma FatherWeight(e: nat, leaves: set<nat>, rec: seq<nat>, w: seq<nat>, k: nat) returns (s: nat)
    requires IsTree(e, leaves, rec, w) && k < |rec|
    ensures 2 * (k / 2) <= s < |rec| && s / 2 == k / 2 && Father(e, k) < |w| && rec[s] < |w| && rec[k] < |w|
    ensures w[Father(e, k)] == w[rec[k]] + w[rec[s]]
  {
    assert SumOfSons(e, rec, w, e + k / 2);
    s := if k % 2 == 0 then k + 1 else k - 1;
  }

  /**
   From a leaf up: a node that is i steps above it weighs at least Fib(i + 2), since the brother of each node on the
   way was joined after that node's sons and is no lighter than either of them.
   */
  lemma {:induction false} Climb(e: nat, leaves: set<nat>, rec: seq<nat>, w: seq<nat>, D: seq<nat>, k: nat, i: nat)
    requires IsTree(e, leaves, rec, w) && Rising(rec, w) && IsDepth(e, rec, D) && k < |rec|
    requires Father(e, k) < |w| && w[rec[k]] >= Fib(i + 2) && w[Father(e, k)] >= Fib(i + 3)
    ensures w[e + |rec| / 2 - 1] >= Fib(i + D[rec[k]] + 2)
    decreases |rec| - k
  {
    hide SumOfSons;
    var j := FatherLater(e, leaves, rec, w, k);
    if Father(e, k) != e + |rec| / 2 - 1 {
      assert IsNode(e, leaves, j / 2, rec[j]);
      var s := FatherWeight(e, leaves, rec, w, j);
      assert w[rec[k]] <= w[rec[s]];
      assert Fib(i + 4) == Fib(i + 3) + Fib(i + 2);
      Climb(e, leaves, rec, w, D, j, i + 1);
    }
  }

  /** A leaf at some depth makes the whole tree weigh at least a Fibonacci number. */
  lemma DeepIsHeavy(e: nat, leaves: set<nat>, rec: seq<nat>, w: seq<nat>, max: nat)
    requires IsTree(e, leaves, rec, w) && Rising(rec, w) && Deep(e, leaves, rec, max)
    requires forall x :: x in leaves && x < |w| ==> w[x] >= 1
    ensures w[e + |rec| / 2 - 1] >= Fib(max + 3)
  {
    var D: seq<nat>, x: nat :| IsDepth(e, rec, D) && x in leaves && x < |D| && D[x] > max;
    var k := LeafRecorded(e, leaves, rec, w, x);
    assert IsNode(e, leaves, 0 / 2, rec[0]) && w[rec[0]] >= 1;
    var s := FatherWeight(e, leaves, rec, w, k);
    assert w[rec[0]] <= w[rec[k]] && w[rec[0]] <= w[rec[s]];
    assert Fib(2) == 1 && Fib(3) == 2;
    Climb(e, leaves, rec, w, D, k, 0);
    FibGrows(max + 3, D[x] + 2);
  }

  /** A tree of two leaves is not deep. */
  lemma TwoLeaves(e: nat, leaves: set<nat>, rec: seq<nat>, w: seq<nat>, max: nat)
    requires IsTree(e, leaves, rec, w) && |rec| == 2 && max >= 1
    ensures !Deep(e, leaves, rec, max)
  {
    forall D: seq<nat>, x: nat | IsDepth(e, rec, D) && x in leaves && x < |D|
      ensures D[x] == 1
    {
      var k := LeafRecorded(e, leaves, rec, w, x);
    }
  }
}
