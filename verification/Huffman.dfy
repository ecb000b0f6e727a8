/**
 Why joining the two lightest subtrees is right: the lower bound on the cost of any prefix code.

 A forest is a set of nodes with weights. An assignment of lengths to them is admissible when it
 meets the Kraft inequality, that is, when it is the lengths of some prefix code. Lengths are
 compared in units of 2^-top, for any top at least as large as all of them.
 */
module Huffman {
  import opened Shift

  /** The total weight times length of the first n nodes. */
  ghost function Cost(act: set<nat>, w: seq<nat>, l: seq<nat>, n: nat): nat
    requires n <= |w| && n <= |l|
  {
    if n == 0 then 0 else Cost(act, w, l, n - 1) + if n - 1 in act then w[n - 1] * l[n - 1] else 0
  }

  /** The sum of 2^(top - length) over the first n nodes. */
  ghost function Kraft(act: set<nat>, l: seq<nat>, top: nat, n: nat): nat
    requires n <= |l|
  {
    if n == 0 then 0
    else Kraft(act, l, top, n - 1) + if n - 1 in act && l[n - 1] <= top then Pow2(top - l[n - 1]) else 0
  }

  ghost predicate Under(act: set<nat>, l: seq<nat>, top: nat)
  {
    forall x :: x in act ==> x < |l| && l[x] <= top
  }

  /** l is the lengths of a prefix code for the nodes of act. */
  ghost predicate Admissible(act: set<nat>, l: seq<nat>, top: nat)
  {
    Under(act, l, top) && Kraft(act, l, top, |l|) <= Pow2(top)
  }

  /** No prefix code for the nodes of act costs less than b. */
  ghost predicate LowerBound(act: set<nat>, w: seq<nat>, b: int)
  {
    forall l: seq<nat>, top: nat :: |l| == |w| && Admissible(act, l, top) ==> Cost(act, w, l, |w|) >= b
  }

  // ---------- the two sums, one node at a time ----------

  lemma {:induction false} CostSplit(act: set<nat>, w: seq<nat>, l: seq<nat>, n: nat, x: nat)
    requires n <= |w| && n <= |l| && x in act && x < n
    ensures Cost(act, w, l, n) == Cost(act - {x}, w, l, n) + w[x] * l[x]
  {
    if x == n - 1 {
      CostSame(act, act - {x}, w, w, l, l, n - 1);
    } else {
      CostSplit(act, w, l, n - 1, x);
    }
  }

  lemma {:induction false} CostSame(act: set<nat>, act1: set<nat>, w: seq<nat>, w1: seq<nat>, l: seq<nat>, l1: seq<nat>,
                                    n: nat)
    requires n <= |w| && n <= |l| && n <= |w1| && n <= |l1|
    requires forall x: nat :: x < n ==> (x in act <==> x in act1)
    requires forall x: nat :: x < n && x in act ==> w[x] == w1[x] && l[x] == l1[x]
    ensures Cost(act, w, l, n) == Cost(act1, w1, l1, n)
  {
    if n > 0 {
      CostSame(act, act1, w, w1, l, l1, n - 1);
    }
  }

  lemma {:induction false} KraftSplit(act: set<nat>, l: seq<nat>, top: nat, n: nat, x: nat)
    requires n <= |l| && x in act && x < n && l[x] <= top
    ensures Kraft(act, l, top, n) == Kraft(act - {x}, l, top, n) + Pow2(top - l[x])
  {
    if x == n - 1 {
      KraftSame(act, act - {x}, l, l, top, n - 1);
    } else {
      KraftSplit(act, l, top, n - 1, x);
    }
  }

  lemma {:induction false} KraftSame(act: set<nat>, act1: set<nat>, l: seq<nat>, l1: seq<nat>, top: nat, n: nat)
    requires n <= |l| && n <= |l1|
    requires forall x: nat :: x < n ==> (x in act <==> x in act1)
    requires forall x: nat :: x < n && x in act ==> l[x] == l1[x]
    ensures Kraft(act, l, top, n) == Kraft(act1, l1, top, n)
  {
    if n > 0 {
      KraftSame(act, act1, l, l1, top, n - 1);
    }
  }

  /** Finer units only multiply the sum. */
  lemma {:induction false} KraftScale(act: set<nat>, l: seq<nat>, m: nat, top: nat, n: nat)
    requires n <= |l| && m <= top && Under(act, l, m)
    ensures Kraft(act, l, top, n) == Shl(Kraft(act, l, m, n), top - m)
  {
    if n == 0 {
      ShlOne(top - m);
    } else {
      KraftScale(act, l, m, top, n - 1);
      if n - 1 in act {
        ShlPow2(m - l[n - 1], top - m);
        ShlAdd(Kraft(act, l, m, n - 1), Pow2(m - l[n - 1]), top - m);
      }
    }
  }

  // ---------- moving the two lightest nodes to the bottom ----------

  /** What exchanging the lengths of two nodes saves. */
  lemma ExchangeGain(act: set<nat>, w: seq<nat>, l: seq<nat>, top: nat, a: nat, x: nat)
    requires |l| == |w| && Admissible(act, l, top) && a in act && x in act && a != x
    ensures var l1 := l[a := l[x]][x := l[a]];
            Admissible(act, l1, top)
            && Cost(act, w, l1, |w|) + (w[x] as int - w[a] as int) * (l[x] as int - l[a] as int) == Cost(act, w, l, |w|)
  {
    var l1 := l[a := l[x]][x := l[a]];
    var n := |w|;
    var rest := act - {a} - {x};
    CostSplit(act, w, l, n, a);
    CostSplit(act - {a}, w, l, n, x);
    CostSplit(act, w, l1, n, a);
    CostSplit(act - {a}, w, l1, n, x);
    CostSame(rest, rest, w, w, l, l1, n);
    KraftSplit(act, l, top, n, a);
    KraftSplit(act - {a}, l, top, n, x);
    KraftSplit(act, l1, top, n, a);
    KraftSplit(act - {a}, l1, top, n, x);
    KraftSame(rest, rest, l, l1, top, n);
    ExchangeProducts(w[a], w[x], l[a], l[x]);
  }

  lemma ExchangeProducts(wa: int, wx: int, la: int, lx: int)
    ensures wa * lx + wx * la + (wx - wa) * (lx - la) == wa * la + wx * lx
  {
  }

  /** Exchanging the lengths of a light and a heavy node, to the advantage of the heavy one, does not cost more. */
  lemma Exchange(act: set<nat>, w: seq<nat>, l: seq<nat>, top: nat, a: nat, x: nat)
    requires |l| == |w| && Admissible(act, l, top) && a in act && x in act
    requires w[a] <= w[x] && l[a] <= l[x]
    ensures var l1 := l[a := l[x]][x := l[a]];
            Admissible(act, l1, top) && Cost(act, w, l1, |w|) <= Cost(act, w, l, |w|)
  {
    if a == x {
      assert l[a := l[x]][x := l[a]] == l;
    } else {
      ExchangeGain(act, w, l, top, a, x);
      NonNegative(w[x] - w[a], l[x] - l[a]);
    }
  }

  lemma NonNegative(x: nat, y: nat)
    ensures x * y >= 0 && (x > 0 && y > 0 ==> x * y > 0)
  {
  }

  /** In a code of least cost a more frequent node is not deeper. */
  lemma LighterIsDeeper(act: set<nat>, w: seq<nat>, l: seq<nat>, top: nat, a: nat, x: nat)
    requires |l| == |w| && Admissible(act, l, top) && LowerBound(act, w, Cost(act, w, l, |w|))
    requires a in act && x in act && w[a] < w[x]
    ensures l[a] >= l[x]
  {
    if l[a] < l[x] {
      ExchangeGain(act, w, l, top, a, x);
      NonNegative(w[x] - w[a], l[x] - l[a]);
    }
  }

  lemma Deepest(act: set<nat>, l: seq<nat>, top: nat) returns (x: nat)
    requires act != {} && Under(act, l, top)
    ensures x in act && Under(act, l, l[x])
    decreases act
  {
    x :| x in act;
    if act != {x} {
      var y := Deepest(act - {x}, l, top);
      if l[y] > l[x] {
        x := y;
      }
    }
  }

  /** If a alone is deepest, it can be raised to the next level. */
  lemma Raise(act: set<nat>, w: seq<nat>, l: seq<nat>, top: nat, a: nat, m: nat)
    requires |l| == |w| && Admissible(act, l, top) && a in act
    requires m <= l[a] && Under(act - {a}, l, m)
    ensures Admissible(act, l[a := m], top) && Cost(act, w, l[a := m], |w|) <= Cost(act, w, l, |w|)
  {
    var n, l1, rest := |w|, l[a := m], act - {a};
    CostSplit(act, w, l, n, a);
    CostSplit(act, w, l1, n, a);
    CostSame(rest, rest, w, w, l, l1, n);
    Times(w[a], m, l[a]);
    KraftSplit(act, l, top, n, a);
    KraftSplit(act, l1, top, n, a);
    KraftSame(rest, rest, l, l1, top, n);
    KraftScale(rest, l, m, top, n);
    ShlPow2(m, top - m);
    var k := Kraft(rest, l, m, n);
    if k >= Pow2(m) {
      ShlLe(Pow2(m), k, top - m);
    }
    ShlLe(k + 1, Pow2(m), top - m);
    ShlAdd(k, 1, top - m);
    ShlOne(top - m);
  }

  lemma Times(w: nat, m: nat, l: nat)
    requires m <= l
    ensures w * m <= w * l
  {
  }

  ghost predicate TwoLightest(act: set<nat>, w: seq<nat>, a: nat, b: nat)
  {
    && a in act && b in act && a != b && (forall x :: x in act ==> x < |w|)
    && (forall x :: x in act ==> w[a] <= w[x])
    && (forall x :: x in act && x != a ==> w[b] <= w[x])
  }

  /** Some code that costs no more has the two lightest nodes as brothers. */
  lemma Brothers(act: set<nat>, w: seq<nat>, l: seq<nat>, top: nat, a: nat, b: nat) returns (l1: seq<nat>)
    requires |l| == |w| && Admissible(act, l, top) && TwoLightest(act, w, a, b)
    ensures |l1| == |w| && Admissible(act, l1, top) && Cost(act, w, l1, |w|) <= Cost(act, w, l, |w|)
    ensures l1[a] == l1[b] > 0
  {
    var x := Deepest(act, l, top);
    Exchange(act, w, l, top, a, x);
    l1 := l[a := l[x]][x := l[a]];
    assert b in act - {a};
    var y := Deepest(act - {a}, l1, top);
    Exchange(act, w, l1, top, b, y);
    l1 := l1[b := l1[y]][y := l1[b]];
    Raise(act, w, l1, top, a, l1[b]);
    l1 := l1[a := l1[b]];
    if l1[b] == 0 {
      KraftSplit(act, l1, top, |w|, a);
      KraftSplit(act - {a}, l1, top, |w|, b);
    }
  }

  /** Joining the two lightest nodes a and b into d adds exactly w[a] + w[b] to the bound. */
  lemma Join(act: set<nat>, w: seq<nat>, a: nat, b: nat, d: nat, bound: int)
    requires TwoLightest(act, w, a, b) && d !in act && d < |w|
    requires LowerBound(act - {a, b} + {d}, w[d := w[a] + w[b]], bound)
    ensures LowerBound(act, w, bound + w[a] + w[b])
  {
    forall l: seq<nat>, top: nat | |l| == |w| && Admissible(act, l, top)
      ensures Cost(act, w, l, |w|) >= bound + w[a] + w[b]
    {
      var l1 := Brothers(act, w, l, top, a, b);
      JoinOne(act, w, l1, top, a, b, d, bound);
    }
  }

  lemma JoinOne(act: set<nat>, w: seq<nat>, l: seq<nat>, top: nat, a: nat, b: nat, d: nat, bound: int)
    requires TwoLightest(act, w, a, b) && d !in act && d < |w|
    requires |l| == |w| && Admissible(act, l, top) && l[a] == l[b] > 0
    requires LowerBound(act - {a, b} + {d}, w[d := w[a] + w[b]], bound)
    ensures Cost(act, w, l, |w|) >= bound + w[a] + w[b]
  {
    var act1, w1, l1 := act - {a, b} + {d}, w[d := w[a] + w[b]], l[d := l[a] - 1];
    JoinKraft(act, act1, l, l1, top, a, b, d);
    JoinCost(act, act1, w, w1, l, l1, a, b, d);
    assert Cost(act1, w1, l1, |w1|) >= bound;
  }

  lemma JoinKraft(act: set<nat>, act1: set<nat>, l: seq<nat>, l1: seq<nat>, top: nat, a: nat, b: nat, d: nat)
    requires a in act && b in act && a != b && d !in act && d < |l|
    requires Admissible(act, l, top) && l[a] == l[b] > 0
    requires act1 == act - {a, b} + {d} && l1 == l[d := l[a] - 1]
    ensures Admissible(act1, l1, top)
  {
    var n, rest := |l|, act - {a} - {b};
    assert act1 - {d} == rest;
    KraftSplit(act, l, top, n, a);
    KraftSplit(act - {a}, l, top, n, b);
    KraftSplit(act1, l1, top, n, d);
    KraftSame(rest, rest, l, l1, top, n);
    assert Pow2(top - (l[a] - 1)) == 2 * Pow2(top - l[a]);
  }

  lemma JoinCost(act: set<nat>, act1: set<nat>, w: seq<nat>, w1: seq<nat>, l: seq<nat>, l1: seq<nat>, a: nat, b: nat,
                 d: nat)
    requires a in act && b in act && a != b && d !in act && d < |l| && |l| == |w| && forall x :: x in act ==> x < |w|
    requires l[a] == l[b] > 0
    requires act1 == act - {a, b} + {d} && l1 == l[d := l[a] - 1] && w1 == w[d := w[a] + w[b]]
    ensures Cost(act, w, l, |w|) == Cost(act1, w1, l1, |w|) + w[a] + w[b]
  {
    var n, rest := |l|, act - {a} - {b};
    assert act1 - {d} == rest;
    CostSplit(act, w, l, n, a);
    CostSplit(act - {a}, w, l, n, b);
    CostSplit(act1, w1, l1, n, d);
    CostSame(rest, rest, w, w1, l, l1, n);
    Brought(w[a], w[b], l[a]);
  }

  lemma Brought(wa: nat, wb: nat, m: nat)
    requires m > 0
    ensures wa * m + wb * m == (wa + wb) * (m - 1) + wa + wb
  {
  }

  lemma BoundSame(act: set<nat>, w: seq<nat>, w1: seq<nat>, bound: int)
    requires |w| == |w1| && forall x :: x in act ==> x < |w| && w[x] == w1[x]
    requires LowerBound(act, w, bound)
    ensures LowerBound(act, w1, bound)
  {
    forall l: seq<nat>, top: nat | |l| == |w1| && Admissible(act, l, top)
      ensures Cost(act, w1, l, |w1|) >= bound
    {
      CostSame(act, act, w, w1, l, l, |w|);
    }
  }

  // ---------- every prefix code is admissible ----------

  ghost predicate PrefixCode(act: set<nat>, words: seq<seq<bool>>)
  {
    && (forall x :: x in act ==> x < |words|)
    && forall x, y :: x in act && y in act && x != y ==> !(words[x] <= words[y])
  }

  ghost predicate LengthsOf(words: seq<seq<bool>>, l: seq<nat>)
  {
    |words| == |l| && forall x :: 0 <= x < |l| ==> |words[x]| == l[x]
  }

  lemma {:induction false} KraftUnion(act: set<nat>, act0: set<nat>, act1: set<nat>, l: seq<nat>, top: nat, n: nat)
    requires n <= |l| && act0 !! act1 && act == act0 + act1
    ensures Kraft(act, l, top, n) == Kraft(act0, l, top, n) + Kraft(act1, l, top, n)
  {
    if n > 0 {
      KraftUnion(act, act0, act1, l, top, n - 1);
    }
  }

  lemma {:induction false} KraftNone(l: seq<nat>, top: nat, n: nat)
    requires n <= |l|
    ensures Kraft({}, l, top, n) == 0
  {
    if n > 0 {
      KraftNone(l, top, n - 1);
    }
  }

  /** One bit shorter, in units twice as large. */
  lemma {:induction false} KraftTails(act: set<nat>, l: seq<nat>, l1: seq<nat>, top: nat, n: nat)
    requires top > 0 && n <= |l| && |l| == |l1|
    requires forall x: nat :: x < n && x in act ==> l[x] == l1[x] + 1
    ensures Kraft(act, l, top, n) == Kraft(act, l1, top - 1, n)
  {
    if n > 0 {
      KraftTails(act, l, l1, top, n - 1);
    }
  }

  lemma EmptyWord(act: set<nat>, words: seq<seq<bool>>, x: nat, y: nat)
    requires PrefixCode(act, words) && x in act && y in act && words[x] == []
    ensures x == y
  {
    assert words[x] <= words[y];
  }

  /** The lengths of a prefix code meet the Kraft inequality, so LowerBound speaks about all prefix codes. */
  lemma {:induction false} PrefixCodesAdmissible(act: set<nat>, words: seq<seq<bool>>, l: seq<nat>, top: nat)
    requires PrefixCode(act, words) && LengthsOf(words, l) && Under(act, l, top)
    ensures Admissible(act, l, top)
    decreases top, 1
  {
    if act == {} {
      KraftNone(l, top, |l|);
    } else if x :| x in act && l[x] == 0 {
      assert act == {x} by {
        forall y | y in act ensures y == x {
          EmptyWord(act, words, x, y);
        }
      }
      KraftSplit(act, l, top, |l|, x);
      assert act - {x} == {};
      KraftNone(l, top, |l|);
    } else {
      var y :| y in act;
      assert top > 0;
      var act0 := set x | x in act && !words[x][0];
      var act1 := set x | x in act && words[x][0];
      KraftHalf(act, act0, words, l, top, false);
      KraftHalf(act, act1, words, l, top, true);
      KraftUnion(act, act0, act1, l, top, |l|);
    }
  }

  /** The words that start with b take at most half of the room. */
  lemma {:induction false} KraftHalf(act: set<nat>, act1: set<nat>, words: seq<seq<bool>>, l: seq<nat>, top: nat,
                                     b: bool)
    requires PrefixCode(act, words) && LengthsOf(words, l) && Under(act, l, top) && top > 0 && act1 <= act
    requires forall x :: x in act1 ==> |words[x]| > 0 && words[x][0] == b
    ensures Kraft(act1, l, top, |l|) <= Pow2(top - 1)
    decreases top, 0
  {
    var tails := seq(|words|, x requires 0 <= x < |words| => if |words[x]| > 0 then words[x][1..] else []);
    var l1 := seq(|l|, x requires 0 <= x < |l| => |tails[x]|);
    PrefixCodeTails(act, act1, words, tails, b);
    PrefixCodesAdmissible(act1, tails, l1, top - 1);
    KraftTails(act1, l, l1, top, |l|);
  }

  lemma PrefixCodeTails(act: set<nat>, act1: set<nat>, words: seq<seq<bool>>, tails: seq<seq<bool>>, b: bool)
    requires PrefixCode(act, words) && act1 <= act && |tails| == |words|
    requires forall x :: x in act1 ==> |words[x]| > 0 && words[x][0] == b && tails[x] == words[x][1..]
    ensures PrefixCode(act1, tails)
  {
    forall x, y | x in act1 && y in act1 && x != y
      ensures !(tails[x] <= tails[y])
    {
      assert words[x] == [b] + tails[x] && words[y] == [b] + tails[y];
    }
  }
}
