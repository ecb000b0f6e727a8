/** build_tree (trees.c): joining the two least frequent nodes until one tree is left. */
module HuffmanQueue {
  import opened Shift
  import opened Huffman
  import opened Forest
  import opened Heap

  const HEAP_SIZE := 573

  function Freqs(tree: seq<CtData>): (w: seq<nat>)
    ensures |w| == |tree| && forall i :: 0 <= i < |tree| ==> w[i] == tree[i].fc
  {
    seq(|tree|, i requires 0 <= i < |tree| => tree[i].fc)
  }

  /** The nodes recorded so far, from the end of the heap array downwards. */
  ghost predicate Recorded(h: seq<nat>, rec: seq<nat>)
  {
    |h| == HEAP_SIZE && |rec| < HEAP_SIZE && forall k :: 0 <= k < |rec| ==> h[HEAP_SIZE - 1 - k] == rec[k]
  }

  ghost predicate Dads(tree: seq<CtData>, e: nat, rec: seq<nat>)
  {
    forall k :: 0 <= k < |rec| ==> rec[k] < |tree| && tree[rec[k]].dl == Father(e, k)
  }

  /** The total weight of the roots. */
  ghost function Mass(act: set<nat>, w: seq<nat>): nat
  {
    Cost(act, w, seq(|w|, _ => 1), |w|)
  }

  /** Joining leaves the total weight as it is, so no weight outgrows it. */
  lemma MassJoined(act: set<nat>, w: seq<nat>, n: nat, m: nat, d: nat)
    requires n in act && m in act && n != m && d !in act && d < |w| && n < |w| && m < |w|
    ensures Mass(act - {n, m} + {d}, w[d := w[n] + w[m]]) == Mass(act, w)
    ensures w[n] + w[m] <= Mass(act, w)
  {
    var w1, act1, ones := w[d := w[n] + w[m]], act - {n, m} + {d}, seq(|w|, _ => 1);
    var rest := act - {n} - {m};
    assert act1 - {d} == rest;
    CostSplit(act, w, ones, |w|, n);
    CostSplit(act - {n}, w, ones, |w|, m);
    CostSplit(act1, w1, ones, |w|, d);
    CostSame(rest, rest, w, w1, ones, ones, |w|);
  }

  /** The queue holds the roots, the tail of the heap array the joined nodes. */
  ghost predicate Working(h: seq<nat>, len: nat, tree: seq<CtData>, depth: seq<nat>, e: nat, leaves: set<nat>,
                          rec: seq<nat>, act: set<nat>)
  {
    && Nodes(h, len, tree, depth) && Elements(h, len) == multiset(act)
    && Joining(e, leaves, rec, Freqs(tree), act)
    && Recorded(h, rec) && Dads(tree, e, rec)
  }

  lemma OrderedSame(h: seq<nat>, len: nat, t: seq<CtData>, d: seq<nat>, t1: seq<CtData>, d1: seq<nat>, k: nat)
    requires 1 <= k && Nodes(h, len, t, d) && Ordered(h, len, t, d, k) && |t1| == |t| && |d1| == |d|
    requires forall i :: k <= i <= len ==> t1[h[i]].fc == t[h[i]].fc && d1[h[i]] == d[h[i]]
    ensures Nodes(h, len, t1, d1) && Ordered(h, len, t1, d1, k)
  {
    forall j | 2 <= j <= len && j / 2 >= k
      ensures Smaller(t1, d1, h[j / 2], h[j])
    {
    }
  }

  /** A new first element, or a dropped last one, leaves the order of the rest. */
  lemma OrderedBelow(h: seq<nat>, len: nat, t: seq<CtData>, d: seq<nat>, x: nat, len1: nat)
    requires 1 <= len1 <= len && Nodes(h, len, t, d) && Ordered(h, len, t, d, 1) && x < |t| && x < |d|
    ensures Nodes(h[1 := x], len1, t, d) && Ordered(h[1 := x], len1, t, d, 2)
  {
  }

  ghost predicate LeastOf(tree: seq<CtData>, act: set<nat>, n: nat)
  {
    n in act && n < |tree| && forall x :: x in act ==> x < |tree| && tree[n].fc <= tree[x].fc
  }

  lemma First(h: seq<nat>, len: nat, tree: seq<CtData>, depth: seq<nat>, act: set<nat>)
    requires 1 <= len && Nodes(h, len, tree, depth) && Ordered(h, len, tree, depth, 1)
    requires Elements(h, len) == multiset(act)
    ensures LeastOf(tree, act, h[1])
  {
    assert h[1..len + 1][0] == h[1];
    assert h[1] in Elements(h, len);
    forall x | x in act
      ensures x < |tree| && tree[h[1]].fc <= tree[x].fc
    {
      assert x in multiset(act);
      LeastElement(h, len, tree, depth, x);
    }
  }

  lemma RemovedFirst(h: seq<nat>, len: nat, act: set<nat>)
    requires 1 <= len < |h| && Elements(h, len) == multiset(act) && h[1] in act
    ensures Elements(h[1 := h[len]], len - 1) == multiset(act - {h[1]})
  {
    Removed(h, len);
    assert multiset(act) - multiset{h[1]} == multiset(act - {h[1]});
  }

  /** Takes the least element out of the queue. */
  method PqRemove(heap: array<nat>, len: nat, tree: array<CtData>, depth: array<nat>, ghost act: set<nat>)
    returns (top: nat)
    requires heap != depth && 2 <= len && Nodes(heap[..], len, tree[..], depth[..])
    requires Ordered(heap[..], len, tree[..], depth[..], 1) && Elements(heap[..], len) == multiset(act)
    modifies heap
    ensures LeastOf(tree[..], act, top)
    ensures Nodes(heap[..], len - 1, tree[..], depth[..]) && Ordered(heap[..], len - 1, tree[..], depth[..], 1)
    ensures Elements(heap[..], len - 1) == multiset(act - {top})
    ensures forall i :: len <= i < heap.Length ==> heap[i] == old(heap[i])
  {
    hide Ordered, Elements, LeastOf;
    ghost var h := heap[..];
    First(h, len, tree[..], depth[..], act);
    InAct(tree[..], act, h[1]);
    RemovedFirst(h, len, act);
    OrderedBelow(h, len, tree[..], depth[..], h[len], len - 1);
    top := heap[1];
    heap[1] := heap[len];
    assert heap[..] == h[1 := h[len]];
    PqDownHeap(heap, len - 1, tree, depth, 1);
  }

  lemma InAct(tree: seq<CtData>, act: set<nat>, n: nat)
    requires LeastOf(tree, act, n)
    ensures n in act
  {
  }

  lemma Lightest(tree: seq<CtData>, act: set<nat>, n: nat, m: nat)
    requires LeastOf(tree, act, n) && LeastOf(tree, act - {n}, m)
    ensures TwoLightest(act, Freqs(tree), n, m)
  {
  }

  /** The tree array after n and m have become the sons of node. */
  function JoinedTree(tree: seq<CtData>, n: nat, m: nat, node: nat): seq<CtData>
    requires n < |tree| && m < |tree| && node < |tree|
  {
    tree[node := tree[node].(fc := tree[n].fc + tree[m].fc)][m := tree[m].(dl := node)][n := tree[n].(dl := node)]
  }

  lemma JoinedFreqs(tree: seq<CtData>, n: nat, m: nat, node: nat)
    requires n < |tree| && m < |tree| && node < |tree| && node != n && node != m && n != m
    ensures Freqs(JoinedTree(tree, n, m, node)) == Freqs(tree)[node := tree[n].fc + tree[m].fc]
  {
  }

  lemma JoinedDads(tree: seq<CtData>, e: nat, rec: seq<nat>, n: nat, m: nat)
    requires Dads(tree, e, rec) && |rec| % 2 == 0 && n < |tree| && m < |tree| && n != m
    requires e + |rec| / 2 < |tree| && e + |rec| / 2 != n && e + |rec| / 2 != m
    requires forall k :: 0 <= k < |rec| ==> rec[k] != n && rec[k] != m && rec[k] != e + |rec| / 2
    ensures Dads(JoinedTree(tree, n, m, e + |rec| / 2), e, rec + [n, m])
  {
  }

  lemma RecordedTwo(h: seq<nat>, rec: seq<nat>, n: nat, m: nat)
    requires Recorded(h, rec) && |rec| + 2 < HEAP_SIZE
    ensures var k := HEAP_SIZE - |rec|;
            Recorded(h[k - 1 := n][k - 2 := m], rec + [n, m])
  {
  }

  /** What one round does to the forest. */
  lemma RoundForest(tree: seq<CtData>, e: nat, leaves: set<nat>, rec: seq<nat>, act: set<nat>, n: nat, m: nat)
    requires Joining(e, leaves, rec, Freqs(tree), act) && Dads(tree, e, rec)
    requires LeastOf(tree, act, n) && LeastOf(tree, act - {n}, m) && e + |rec| / 2 < |tree|
    ensures var node := e + |rec| / 2;
            && n != m && n != node && m != node && node !in act
            && Joining(e, leaves, rec + [n, m], Freqs(JoinedTree(tree, n, m, node)), act - {n, m} + {node})
            && Dads(JoinedTree(tree, n, m, node), e, rec + [n, m])
  {
    hide Freqs, Rising, Heavier, Reduces;
    Lightest(tree, act, n, m);
    JoinStep(e, leaves, rec, Freqs(tree), act, n, m);
    NewNode(e, leaves, rec, Freqs(tree), act, n, m);
    JoinedFreqs(tree, n, m, e + |rec| / 2);
    FreqAt(tree, n);
    FreqAt(tree, m);
    RootsNotRecorded(e, leaves, rec, act);
    JoinedDads(tree, e, rec, n, m);
  }

  lemma FreqAt(tree: seq<CtData>, n: nat)
    requires n < |tree|
    ensures Freqs(tree)[n] == tree[n].fc
  {
  }

  lemma RootsNotRecorded(e: nat, leaves: set<nat>, rec: seq<nat>, act: set<nat>)
    requires |rec| % 2 == 0 && Roots(e, leaves, rec, |rec| / 2, act)
    ensures forall k :: 0 <= k < |rec| ==> rec[k] !in act
  {
    assert rec[..2 * (|rec| / 2)] == rec;
  }

  /** Puts the new node in place of m, which is no longer needed, and restores the heap order. */
  method InsertNode(heap: array<nat>, len: nat, tree: array<CtData>, depth: array<nat>, node: nat,
                    ghost t0: seq<CtData>, ghost d0: seq<nat>, ghost act: set<nat>)
    requires heap != depth && 1 <= len && Nodes(heap[..], len, t0, d0) && Ordered(heap[..], len, t0, d0, 1)
    requires Elements(heap[..], len) == multiset(act) && heap[1] in act && node !in act
    requires |t0| == tree.Length && |d0| == depth.Length && node < tree.Length && node < depth.Length
    requires forall x :: x in act ==> x < |t0| && x < |d0| && tree[x].fc == t0[x].fc && depth[x] == d0[x]
    modifies heap
    ensures Nodes(heap[..], len, tree[..], depth[..]) && Ordered(heap[..], len, tree[..], depth[..], 1)
    ensures Elements(heap[..], len) == multiset(act - {old(heap[1])} + {node})
    ensures forall i :: len < i < heap.Length ==> heap[i] == old(heap[i])
  {
    hide Ordered, Elements;
    ghost var h := heap[..];
    Kept(h, len, t0, d0, tree[..], depth[..], act);
    OrderedBelow(h, len, tree[..], depth[..], node, len);
    Replaced(h, len, node);
    assert multiset(act) - multiset{h[1]} + multiset{node} == multiset(act - {h[1]} + {node});
    heap[1] := node;
    assert heap[..] == h[1 := node];
    PqDownHeap(heap, len, tree, depth, 1);
  }

  lemma Kept(h: seq<nat>, len: nat, t0: seq<CtData>, d0: seq<nat>, t1: seq<CtData>, d1: seq<nat>, act: set<nat>)
    requires Nodes(h, len, t0, d0) && Ordered(h, len, t0, d0, 1) && Elements(h, len) == multiset(act)
    requires |t0| == |t1| && |d0| == |d1|
    requires forall x :: x in act ==> x < |t0| && x < |d0| && t1[x].fc == t0[x].fc && d1[x] == d0[x]
    ensures Nodes(h, len, t1, d1) && Ordered(h, len, t1, d1, 1)
  {
    forall i | 1 <= i <= len
      ensures h[i] in act
    {
      assert h[1..len + 1][i - 1] == h[i];
      assert h[i] in Elements(h, len);
    }
    OrderedSame(h, len, t0, d0, t1, d1, 1);
  }

  lemma LeastFacts(tree: seq<CtData>, act: set<nat>, n: nat, m: nat)
    requires LeastOf(tree, act, n) && LeastOf(tree, act - {n}, m)
    ensures n < |tree| && m < |tree| && n in act && m in act && n != m
    ensures forall x :: x in act ==> x < |tree|
  {
  }

  method Record(heap: array<nat>, heapMax: nat, n: nat, m: nat)
    requires 2 <= heapMax <= heap.Length
    modifies heap
    ensures heap[..] == old(heap[..])[heapMax - 1 := n][heapMax - 2 := m]
  {
    heap[heapMax - 1] := n;
    heap[heapMax - 2] := m;
  }

  /** Creates the father of n and m. */
  method MakeFather(tree: array<CtData>, depth: array<nat>, n: nat, m: nat, node: nat)
    requires n < tree.Length && m < tree.Length && node < tree.Length <= depth.Length && n != m && n != node
    requires m != node
    requires tree[n].fc + tree[m].fc < 0x10000   // Freq is an unsigned short
    modifies tree, depth
    ensures tree[..] == JoinedTree(old(tree[..]), n, m, node)
    ensures forall i :: 0 <= i < depth.Length && i != node ==> depth[i] == old(depth[i])
  {
    tree[node] := tree[node].(fc := tree[n].fc + tree[m].fc);
    depth[node] := ((if depth[n] >= depth[m] then depth[n] else depth[m]) + 1) % 256;
    tree[m] := tree[m].(dl := node);
    tree[n] := tree[n].(dl := node);
  }

  lemma Apart(t0: seq<CtData>, t1: seq<CtData>, d0: seq<nat>, d1: seq<nat>, act: set<nat>, n: nat, m: nat, node: nat)
    requires n < |t0| && m < |t0| && node < |t0| <= |d0| && t1 == JoinedTree(t0, n, m, node) && node !in act
    requires n != m && n != node && m != node
    requires |d0| == |d1| && forall i :: 0 <= i < |d0| && i != node ==> d1[i] == d0[i]
    requires forall x :: x in act ==> x < |t0|
    ensures forall x :: x in act - {n} ==> x < |t0| && x < |d0| && t1[x].fc == t0[x].fc && d1[x] == d0[x]
  {
  }

  /** One round of the main loop: the two least nodes n and m become the sons of a new node. */
  method JoinTwo(tree: array<CtData>, heap: array<nat>, depth: array<nat>, e: nat, len0: nat, heapMax: nat, node: nat,
                 ghost leaves: set<nat>, ghost rec0: seq<nat>, ghost act0: set<nat>)
    returns (ghost rec: seq<nat>, ghost act: set<nat>)
    requires heap != depth && 2 <= len0 && heapMax == HEAP_SIZE - |rec0| >= len0 + 2
    requires Working(heap[..], len0, tree[..], depth[..], e, leaves, rec0, act0)
    requires Ordered(heap[..], len0, tree[..], depth[..], 1)
    requires node == e + |rec0| / 2 < tree.Length <= depth.Length
    requires Mass(act0, Freqs(tree[..])) < 0x10000
    modifies tree, heap, depth
    ensures |rec| == |rec0| + 2 && Mass(act, Freqs(tree[..])) == Mass(act0, old(Freqs(tree[..])))
    ensures Working(heap[..], len0 - 1, tree[..], depth[..], e, leaves, rec, act)
    ensures Ordered(heap[..], len0 - 1, tree[..], depth[..], 1)
    ensures exists n, m :: n in act0 && m in act0 && n < tree.Length && m < tree.Length
                           && tree[..] == JoinedTree(old(tree[..]), n, m, node)
  {
    hide Ordered, Elements, LeastOf, Joining, Smaller, Nodes, Recorded, Dads, Mass, Freqs, JoinedTree;
    ghost var t0, h0 := tree[..], heap[..];
    var len := len0 - 1;
    var n := PqRemove(heap, len0, tree, depth, act0);
    ghost var d0, h1 := depth[..], heap[..];
    RecordedSame(h0, h1, rec0, len);
    First(h1, len, t0, d0, act0 - {n});
    var m := heap[1];
    LeastFacts(t0, act0, n, m);
    RoundForest(t0, e, leaves, rec0, act0, n, m);
    RecordedTwo(h1, rec0, n, m);
    Record(heap, heapMax, n, m);   // keep the nodes sorted by frequency
    ghost var h2 := heap[..];
    AboveQueue(h1, h2, len, t0, d0);
    MassJoined(act0, Freqs(t0), n, m, node);
    JoinedFreqs(t0, n, m, node);
    FreqAt(t0, n);
    FreqAt(t0, m);
    MakeFather(tree, depth, n, m, node);
    Apart(t0, tree[..], d0, depth[..], act0, n, m, node);
    // and insert it in the heap
    InsertNode(heap, len, tree, depth, node, t0, d0, act0 - {n});
    rec := rec0 + [n, m];
    act := act0 - {n, m} + {node};
    assert act0 - {n} - {m} + {node} == act;
    RecordedSame(h2, heap[..], rec, len);
  }

  lemma RecordedSame(h: seq<nat>, h1: seq<nat>, rec: seq<nat>, len: nat)
    requires Recorded(h, rec) && |h1| == |h| && len < HEAP_SIZE - |rec|
    requires forall i :: len < i < |h| ==> h1[i] == h[i]
    ensures Recorded(h1, rec)
  {
  }

  lemma AboveQueue(h: seq<nat>, h1: seq<nat>, len: nat, tree: seq<CtData>, depth: seq<nat>)
    requires Nodes(h, len, tree, depth) && Ordered(h, len, tree, depth, 1) && |h1| == |h|
    requires forall i :: 0 <= i <= len ==> h1[i] == h[i]
    ensures Nodes(h1, len, tree, depth) && Ordered(h1, len, tree, depth, 1)
    ensures Elements(h1, len) == Elements(h, len)
  {
    assert h1[1..len + 1] == h[1..len + 1];
  }

  /** Below e the frequencies are kept, and symbols outside the tree are not touched. */
  ghost predicate SymbolsKept(t0: seq<CtData>, t1: seq<CtData>, e: nat, leaves: set<nat>)
  {
    && |t0| == |t1| && e <= |t0|
    && forall s: nat :: s < e ==> t1[s].fc == t0[s].fc && (s !in leaves ==> t1[s] == t0[s])
  }

  lemma RoundKeeps(t0: seq<CtData>, t1: seq<CtData>, e: nat, leaves: set<nat>, rec: seq<nat>, act: set<nat>, n: nat,
                   m: nat)
    requires Joining(e, leaves, rec, Freqs(t0), act) && n in act && m in act
    requires n < |t0| && m < |t0| && e + |rec| / 2 < |t0| && t1 == JoinedTree(t0, n, m, e + |rec| / 2)
    ensures SymbolsKept(t0, t1, e, leaves)
  {
  }

  lemma OneLeft(h: seq<nat>, act: set<nat>)
    requires 2 < |h| && Elements(h, 1) == multiset(act)
    ensures act == {h[1]}
  {
    assert h[1..2] == [h[1]];
    assert forall x :: x in act <==> x in multiset(act);
  }

  /** The queue with two or more leaves, about to be joined. */
  ghost predicate Ready(h: seq<nat>, len: nat, tree: seq<CtData>, depth: seq<nat>, e: nat, leaves: set<nat>)
  {
    && 2 <= len <= e && 2 * e < |tree| <= |depth| && 2 * e < HEAP_SIZE == |h|
    && Nodes(h, len, tree, depth) && Ordered(h, len, tree, depth, 1) && Elements(h, len) == multiset(leaves)
    && (forall x :: x in leaves ==> x < e) && Mass(leaves, Freqs(tree)) < 0x10000
  }

  /** The tree, its nodes listed from the end of the heap array down to the root at heapMax. */
  ghost predicate Listed(h: seq<nat>, heapMax: nat, tree: seq<CtData>, e: nat, leaves: set<nat>, rec: seq<nat>)
  {
    && IsTree(e, leaves, rec, Freqs(tree)) && Rising(rec, Freqs(tree)) && Dads(tree, e, rec)
    && Recorded(h, rec) && heapMax + |rec| + 1 == HEAP_SIZE && h[heapMax] == e + |rec| / 2 - 1
    && LowerBound(leaves, Freqs(tree), Joined(e, Freqs(tree), |rec| / 2))
  }

  lemma Finished(h: seq<nat>, tree: seq<CtData>, e: nat, leaves: set<nat>, rec: seq<nat>, act: set<nat>)
    requires |h| == HEAP_SIZE && Elements(h, 1) == multiset(act) && 2 <= |rec| < HEAP_SIZE - 1 && |rec| % 2 == 0
    requires Joining(e, leaves, rec, Freqs(tree), act) && Recorded(h, rec) && Dads(tree, e, rec)
    ensures var heapMax := HEAP_SIZE - 1 - |rec|;
            Listed(h[heapMax := h[1]], heapMax, tree, e, leaves, rec)
  {
    OneLeft(h, act);
    OneRoot(e, leaves, rec, Freqs(tree), act, h[1]);
    Bound(e, leaves, rec, Freqs(tree), h[1]);
  }

  /** The root weighs what the leaves weigh. */
  lemma RootMass(h: seq<nat>, tree: seq<CtData>, e: nat, leaves: set<nat>, rec: seq<nat>, act: set<nat>)
    requires |h| == HEAP_SIZE && Elements(h, 1) == multiset(act) && |rec| >= 2
    requires Joining(e, leaves, rec, Freqs(tree), act)
    ensures e + |rec| / 2 - 1 < |tree| && tree[e + |rec| / 2 - 1].fc == Mass(act, Freqs(tree))
  {
    hide Elements;
    var w := Freqs(tree);
    OneLeft(h, act);
    OneRoot(e, leaves, rec, w, act, h[1]);
    MassOfOne(w, h[1], |w|);
  }

  lemma {:induction false} MassOfOne(w: seq<nat>, x: nat, n: nat)
    requires n <= |w|
    ensures Cost({x}, w, seq(|w|, _ => 1), n) == if x < n then w[x] else 0
  {
    if n > 0 {
      MassOfOne(w, x, n - 1);
    }
  }

  /** Constructs the tree by repeatedly combining the two least frequent nodes. */
  method JoinAll(tree: array<CtData>, heap: array<nat>, depth: array<nat>, e: nat, len0: nat, ghost leaves: set<nat>)
    returns (heapMax: nat, ghost rec: seq<nat>)
    requires heap != depth && Ready(heap[..], len0, tree[..], depth[..], e, leaves)
    modifies tree, heap, depth
    ensures |rec| == 2 * (len0 - 1) && Listed(heap[..], heapMax, tree[..], e, leaves, rec)
    ensures SymbolsKept(old(tree[..]), tree[..], e, leaves)
    ensures e + |rec| / 2 - 1 < tree.Length
    ensures tree[e + |rec| / 2 - 1].fc == Mass(leaves, Freqs(old(tree[..])))
  {
    hide Ordered, Elements, Joining, Nodes, Recorded, Dads, Mass, Freqs, SymbolsKept, IsForest;
    var node := e;
    var len := len0;
    ghost var t0 := tree[..];
    heapMax := HEAP_SIZE;
    rec := [];
    ghost var act := leaves;
    Starts(heap[..], len0, tree[..], depth[..], e, leaves);
    while len >= 2
      invariant 1 <= len <= len0 && |rec| == 2 * (len0 - len) && node == e + |rec| / 2 && heapMax == HEAP_SIZE - |rec|
      invariant Working(heap[..], len, tree[..], depth[..], e, leaves, rec, act)
      invariant Ordered(heap[..], len, tree[..], depth[..], 1)
      invariant Mass(act, Freqs(tree[..])) == Mass(leaves, Freqs(t0))
      invariant SymbolsKept(t0, tree[..], e, leaves)
    {
      ghost var t1, rec1, act1 := tree[..], rec, act;
      rec, act := JoinTwo(tree, heap, depth, e, len, heapMax, node, leaves, rec, act);
      ghost var n, m :| n in act1 && m in act1 && n < tree.Length && m < tree.Length
          && tree[..] == JoinedTree(t1, n, m, node);
      RoundKeeps(t1, tree[..], e, leaves, rec1, act1, n, m);
      KeptTwice(t0, t1, tree[..], e, leaves);
      len, heapMax, node := len - 1, heapMax - 2, node + 1;
    }
    Finished(heap[..], tree[..], e, leaves, rec, act);
    RootMass(heap[..], tree[..], e, leaves, rec, act);
    heapMax := heapMax - 1;
    heap[heapMax] := heap[1];
  }

  lemma KeptTwice(t0: seq<CtData>, t1: seq<CtData>, t2: seq<CtData>, e: nat, leaves: set<nat>)
    requires SymbolsKept(t0, t1, e, leaves) && SymbolsKept(t1, t2, e, leaves)
    ensures SymbolsKept(t0, t2, e, leaves)
  {
  }

  lemma Starts(h: seq<nat>, len: nat, tree: seq<CtData>, depth: seq<nat>, e: nat, leaves: set<nat>)
    requires Ready(h, len, tree, depth, e, leaves)
    ensures Working(h, len, tree, depth, e, leaves, [], leaves) && SymbolsKept(tree, tree, e, leaves)
  {
    Begin(e, leaves, Freqs(tree));
  }

  // ---------- the initial queue ----------

  /** The symbols below n with a nonzero frequency. */
  ghost function Occurring(tree: seq<CtData>, n: nat): set<nat>
    requires n <= |tree|
  {
    set s: nat | s < n && tree[s].fc != 0
  }

  lemma Pushed(h: seq<nat>, len: nat, x: nat, act: set<nat>)
    requires len + 1 < |h| && Elements(h, len) == multiset(act) && x !in act
    ensures Elements(h[len + 1 := x], len + 1) == multiset(act + {x})
  {
    assert h[len + 1 := x][1..len + 2] == h[1..len + 1] + [x];
  }

  /** max is the largest element, and -1 when there is none. */
  ghost predicate IsMax(act: set<nat>, max: int)
  {
    && (forall x :: x in act ==> x <= max)
    && (max in act || (act == {} && max == -1))
  }

  /** heap[1..len] is the set act, whose largest element is max. */
  ghost predicate Queue(h: seq<nat>, len: nat, tree: seq<CtData>, depth: seq<nat>, act: set<nat>, max: int)
  {
    Nodes(h, len, tree, depth) && Elements(h, len) == multiset(act) && |act| == len && IsMax(act, max)
  }

  /** Appends symbol x, a tree of depth 0. */
  method Push(heap: array<nat>, len: nat, x: nat, depth: array<nat>, ghost tree: seq<CtData>, ghost act: set<nat>,
              ghost max: int, ghost max1: int)
    requires heap != depth && len + 1 < heap.Length && x < |tree| <= depth.Length && x !in act
    requires Queue(heap[..], len, tree, depth[..], act, max) && IsMax(act + {x}, max1)
    modifies heap, depth
    ensures Queue(heap[..], len + 1, tree, depth[..], act + {x}, max1)
  {
    ghost var h := heap[..];
    Pushed(h, len, x, act);
    heap[len + 1] := x;
    depth[x] := 0;
    assert heap[..] == h[len + 1 := x];
  }

  lemma MaxGrows(act: set<nat>, max: int, x: nat)
    requires IsMax(act, max) && x > max
    ensures IsMax(act + {x}, x) && x !in act
  {
  }

  lemma QueueMax(h: seq<nat>, len: nat, tree: seq<CtData>, depth: seq<nat>, act: set<nat>, max: int)
    requires Queue(h, len, tree, depth, act, max)
    ensures IsMax(act, max) && |act| == len && -1 <= max
  {
  }

  lemma QueueSame(h: seq<nat>, len: nat, tree: seq<CtData>, tree1: seq<CtData>, depth: seq<nat>, act: set<nat>,
                  max: int)
    requires Queue(h, len, tree, depth, act, max) && |tree1| == |tree|
    ensures Queue(h, len, tree1, depth, act, max)
  {
  }

  /** Frequencies are kept below elems, and the symbols below n that do not occur have no code. */
  ghost predicate Marked(t0: seq<CtData>, t1: seq<CtData>, elems: nat, n: nat)
  {
    && |t0| == |t1| && n <= elems <= |t0|
    && (forall s :: 0 <= s < elems ==> t1[s].fc == t0[s].fc)
    && (forall s :: 0 <= s < n && t0[s].fc == 0 ==> t1[s].dl == 0)
  }

  lemma MarkOne(t0: seq<CtData>, t1: seq<CtData>, elems: nat, n: nat)
    requires Marked(t0, t1, elems, n) && n < elems
    ensures |t1| == |t0| && t1[n].fc == t0[n].fc
    ensures t0[n].fc != 0 ==> Marked(t0, t1, elems, n + 1) && Occurring(t0, n + 1) == Occurring(t0, n) + {n}
    ensures t0[n].fc == 0 ==>
             Marked(t0, t1[n := t1[n].(dl := 0)], elems, n + 1) && Occurring(t0, n + 1) == Occurring(t0, n)
  {
  }

  /** Enters the symbols that occur, and marks the others as having no code. */
  method FillQueue(tree: array<CtData>, heap: array<nat>, depth: array<nat>, elems: nat)
    returns (len: nat, maxCode: int)
    requires heap != depth && elems <= tree.Length <= depth.Length && elems + 1 < heap.Length
    modifies tree, heap, depth
    ensures len <= elems && maxCode < elems
    ensures Queue(heap[..], len, tree[..], depth[..], old(Occurring(tree[..], elems)), maxCode)
    ensures Marked(old(tree[..]), tree[..], elems, elems)
  {
    len := 0;
    maxCode := -1;
    ghost var act: set<nat>, t0 := {}, tree[..];
    assert heap[..][1..1] == [];
    for n := 0 to elems
      invariant len <= n && maxCode < n
      invariant act == Occurring(t0, n) && Queue(heap[..], len, tree[..], depth[..], act, maxCode)
      invariant Marked(t0, tree[..], elems, n)
    {
      hide Queue, IsMax, Marked, Occurring;
      MarkOne(t0, tree[..], elems, n);
      if tree[n].fc != 0 {
        QueueMax(heap[..], len, tree[..], depth[..], act, maxCode);
        MaxGrows(act, maxCode, n);
        Push(heap, len, n, depth, tree[..], act, maxCode, n);
        act := act + {n};
        len := len + 1;
        maxCode := n;
      } else {
        ghost var t1 := tree[..];
        tree[n] := tree[n].(dl := 0);
        assert tree[..] == t1[n := t1[n].(dl := 0)];
        QueueSame(heap[..], len, t1, tree[..], depth[..], act, maxCode);
      }
    }
  }

  /** The symbols of act that are not in act0 have been given the frequency 1. */
  ghost predicate Forced(t0: seq<CtData>, t1: seq<CtData>, elems: nat, act0: set<nat>, act: set<nat>)
  {
    && |t0| == |t1| && elems <= |t0| && act0 <= act
    && (forall x :: x in act && x !in act0 ==> x < 3)
    && forall s :: 0 <= s < elems ==> t1[s] == if s in act && s !in act0 then t0[s].(fc := 1) else t0[s]
  }

  /**
   The symbols that get a code although they do not occur, when len of them do and max is the largest of these, or -1:
   the next larger one below 3, or else 0.
   */
  function ForcedSymbols(len: nat, max: int): set<int>
  {
    if len >= 2 then {} else if len == 0 then {0, 1} else if max < 2 then {max + 1} else {0}
  }

  /** 2 is forced when 1 is the only symbol that occurs, and only then. */
  lemma TwoIsForced(len: nat, max: int, act0: set<nat>)
    requires IsMax(act0, max) && |act0| == len
    ensures 2 in ForcedSymbols(len, max) <==> act0 == {1}
  {
    if len == 1 {
      var x :| x in act0;
      assert |act0 - {x}| == 0;
      assert act0 == {x};
    }
    if act0 == {1} {
      assert 1 in act0;
    }
  }

  /** One code more. */
  method ForceOne(tree: array<CtData>, heap: array<nat>, depth: array<nat>, elems: nat, len: nat, maxCode0: int,
                  ghost act: set<nat>)
    returns (maxCode: int, node: nat)
    requires heap != depth && 3 <= elems <= tree.Length <= depth.Length && elems + 1 < heap.Length && len < 2
    requires Queue(heap[..], len, tree[..], depth[..], act, maxCode0) && maxCode0 < elems
    modifies tree, heap, depth
    ensures node == (if maxCode0 < 2 then maxCode0 + 1 else 0) && node < 3 && node !in act
    ensures maxCode == (if maxCode0 < 2 then maxCode0 + 1 else maxCode0)
    ensures Queue(heap[..], len + 1, tree[..], depth[..], act + {node}, maxCode)
    ensures tree[..] == old(tree[..])[node := old(tree[node]).(fc := 1)]
  {
    hide Queue, IsMax;
    maxCode := maxCode0;
    QueueMax(heap[..], len, tree[..], depth[..], act, maxCode);
    if maxCode < 2 {
      MaxGrows(act, maxCode, maxCode + 1);
      maxCode := maxCode + 1;
      node := maxCode;
    } else {
      node := 0;
      ZeroIsFree(act, maxCode);
    }
    Push(heap, len, node, depth, tree[..], act, maxCode0, maxCode);
    ghost var t1 := tree[..];
    tree[node] := tree[node].(fc := 1);
    QueueSame(heap[..], len + 1, t1, tree[..], depth[..], act + {node}, maxCode);
  }

  ghost predicate ForcedSoFar(len0: nat, max0: int, act0: set<nat>, len: nat, max: int, act: set<nat>)
  {
    && (len == len0 ==> act == act0 && max == max0)
    && (len0 == 0 && len == 1 ==> act == act0 + {0} && max == 0)
    && (len0 < 2 && len == 2 ==> act == act0 + ForcedSymbols(len0, max0))
  }

  lemma ForcedNext(len0: nat, max0: int, act0: set<nat>, len: nat, max: int, act: set<nat>)
    requires ForcedSoFar(len0, max0, act0, len, max, act) && len0 <= len < 2 && IsMax(act, max) && |act| == len
    ensures var node := if max < 2 then max + 1 else 0;
            node >= 0 && ForcedSoFar(len0, max0, act0, len + 1, if max < 2 then max + 1 else max, act + {node})
  {
    if len == 0 {
      assert max == -1;
    } else if len0 == 0 {
      assert act0 + {0} + {1} == act0 + {0, 1};
    }
  }

  lemma ForcedEnds(len0: nat, max0: int, act0: set<nat>, len: nat, max: int, act: set<nat>)
    requires ForcedSoFar(len0, max0, act0, len, max, act) && len >= 2 && (len0 >= 2 ==> len == len0)
    requires len0 < 2 ==> len == 2
    ensures act == act0 + ForcedSymbols(len0, max0)
  {
  }

  /** Forces at least two codes: 0, 1 or 2 gets a code of its own. */
  method ForceCodes(tree: array<CtData>, heap: array<nat>, depth: array<nat>, elems: nat, len0: nat, maxCode0: int,
                    slens: seq<nat>, ghost act0: set<nat>)
    returns (len: nat, maxCode: int, forced: nat, staticOff: nat, ghost act: set<nat>)
    requires heap != depth && 3 <= elems <= tree.Length <= depth.Length && elems + 1 < heap.Length
    requires slens == [] || |slens| >= elems
    requires len0 <= elems && Queue(heap[..], len0, tree[..], depth[..], act0, maxCode0) && maxCode0 < elems
    modifies tree, heap, depth
    ensures 2 <= len <= elems && Queue(heap[..], len, tree[..], depth[..], act, maxCode) && 0 <= maxCode < elems
    ensures forced == len - len0 && (len0 >= 2 ==> len == len0) && (len0 < 2 ==> len == 2)
    ensures act == act0 + ForcedSymbols(len0, maxCode0)
    ensures Forced(old(tree[..]), tree[..], elems, act0, act)
    ensures staticOff == if slens == [] then 0 else StaticOff(slens, act0, act)
    ensures forced == StaticOff([1, 1, 1], act0, act)
  {
    len, maxCode, forced, staticOff, act := len0, maxCode0, 0, 0, act0;
    ghost var t0 := tree[..];
    OffNone(slens, act0);
    OffNone([1, 1, 1], act0);
    while len < 2
      invariant len0 <= len <= elems && maxCode < elems && (len0 >= 2 ==> len == len0) && (len0 < 2 ==> len <= 2)
      invariant Queue(heap[..], len, tree[..], depth[..], act, maxCode) && forced == len - len0
      invariant Forced(t0, tree[..], elems, act0, act)
      invariant ForcedSoFar(len0, maxCode0, act0, len, maxCode, act)
      invariant staticOff == if slens == [] then 0 else StaticOff(slens, act0, act)
      invariant forced == StaticOff([1, 1, 1], act0, act)
    {
      hide Queue, IsMax, StaticOff, ForcedSoFar, Forced, ForcedSymbols;
      QueueMax(heap[..], len, tree[..], depth[..], act, maxCode);
      ForcedNext(len0, maxCode0, act0, len, maxCode, act);
      ghost var t1 := tree[..];
      var node;
      maxCode, node := ForceOne(tree, heap, depth, elems, len, maxCode, act);
      len := len + 1;
      forced := forced + 1;
      OffOne([1, 1, 1], act0, act, node);
      if slens != [] {
        OffOne(slens, act0, act, node);
        staticOff := staticOff + slens[node];
      }
      ForcedOne(t0, t1, elems, act0, act, node);
      act := act + {node};
    }
    hide Queue, IsMax, StaticOff, ForcedSoFar, Forced, ForcedSymbols;
    ForcedEnds(len0, maxCode0, act0, len, maxCode, act);
    QueueMax(heap[..], len, tree[..], depth[..], act, maxCode);
    SomeMax(act, maxCode);
  }

  lemma SomeMax(act: set<nat>, max: int)
    requires IsMax(act, max) && |act| > 0
    ensures max >= 0
  {
  }

  lemma ForcedOne(t0: seq<CtData>, t1: seq<CtData>, elems: nat, act0: set<nat>, act: set<nat>, node: nat)
    requires Forced(t0, t1, elems, act0, act) && node !in act && node < 3 <= elems
    ensures Forced(t0, t1[node := t1[node].(fc := 1)], elems, act0, act + {node})
  {
  }

  /** The static code lengths of the forced symbols, of which only 0, 1 and 2 come into question. */
  ghost function StaticOff(slens: seq<nat>, act0: set<nat>, act: set<nat>): nat
    requires |slens| >= 3
  {
    (if 0 in act && 0 !in act0 then slens[0] else 0) + (if 1 in act && 1 !in act0 then slens[1] else 0)
    + (if 2 in act && 2 !in act0 then slens[2] else 0)
  }

  lemma OffNone(slens: seq<nat>, act0: set<nat>)
    ensures |slens| >= 3 ==> StaticOff(slens, act0, act0) == 0
  {
  }

  lemma OffOne(slens: seq<nat>, act0: set<nat>, act: set<nat>, node: nat)
    requires |slens| >= 3 && node !in act && node < 3 && act0 <= act
    ensures StaticOff(slens, act0, act + {node}) == StaticOff(slens, act0, act) + slens[node]
  {
  }

  lemma ZeroIsFree(act: set<nat>, max: int)
    requires IsMax(act, max) && max >= 2 && |act| < 2
    ensures 0 !in act && IsMax(act + {0}, max)
  {
    var two: set<nat> := {0, max};
    assert |two| == 2;
    if 0 in act {
      CardAtLeast(act, two);
    }
  }

  lemma CardAtLeast(s: set<nat>, t: set<nat>)
    requires t <= s
    ensures |t| <= |s|
  {
    assert s == t + (s - t);
  }

  /** Establishes sub-heaps of increasing lengths. */
  method MakeHeap(heap: array<nat>, len: nat, tree: array<CtData>, depth: array<nat>)
    requires heap != depth && 2 <= len && Nodes(heap[..], len, tree[..], depth[..])
    modifies heap
    ensures Nodes(heap[..], len, tree[..], depth[..]) && Ordered(heap[..], len, tree[..], depth[..], 1)
    ensures Elements(heap[..], len) == old(Elements(heap[..], len))
  {
    var n: nat := len / 2;
    while n >= 1
      invariant n <= len / 2 && Nodes(heap[..], len, tree[..], depth[..])
      invariant Ordered(heap[..], len, tree[..], depth[..], n + 1)
      invariant Elements(heap[..], len) == old(Elements(heap[..], len))
    {
      PqDownHeap(heap, len, tree, depth, n);
      n := n - 1;
    }
  }
}
