/** The priority queue of trees.c: heap[1..len], the sons of heap[k] being heap[2k] and heap[2k + 1]. */
module Heap {

  /** A tree element. Freq and Code share fc, Dad and Len share dl, as in the C union. */
  datatype CtData = CtData(fc: nat, dl: nat)

  /** The order of the queue: by frequency, then by depth. */
  predicate Smaller(tree: seq<CtData>, depth: seq<nat>, n: nat, m: nat)
    requires n < |tree| && m < |tree| && n < |depth| && m < |depth|
  {
    tree[n].fc < tree[m].fc || (tree[n].fc == tree[m].fc && depth[n] <= depth[m])
  }

  ghost predicate Nodes(h: seq<nat>, len: nat, tree: seq<CtData>, depth: seq<nat>)
  {
    len < |h| && forall i :: 1 <= i <= len ==> h[i] < |tree| && h[i] < |depth|
  }

  /** Heap order below every father from position k on. */
  ghost predicate Ordered(h: seq<nat>, len: nat, tree: seq<CtData>, depth: seq<nat>, k: nat)
    requires Nodes(h, len, tree, depth)
  {
    forall j :: 2 <= j <= len && j / 2 >= k ==> Smaller(tree, depth, h[j / 2], h[j])
  }

  /** The queue elements. */
  ghost function Elements(h: seq<nat>, len: nat): multiset<nat>
    requires len < |h|
  {
    multiset(h[1..len + 1])
  }

  lemma Swapped(h: seq<nat>, len: nat, i: nat, j: nat)
    requires 1 <= i <= len && 1 <= j <= len < |h|
    ensures Elements(h[i := h[j]][j := h[i]], len) == Elements(h, len)
  {
    var s := h[1..len + 1];
    assert h[i := h[j]][j := h[i]][1..len + 1] == s[i - 1 := s[j - 1]][j - 1 := s[i - 1]];
  }

  /** Order holds from k0 on, except that the node at k may be too large for its sons. */
  ghost predicate Sifting(h: seq<nat>, len: nat, tree: seq<CtData>, depth: seq<nat>, k0: nat, k: nat)
    requires Nodes(h, len, tree, depth)
  {
    && (forall j :: 2 <= j <= len && j / 2 >= k0 && j / 2 != k ==> Smaller(tree, depth, h[j / 2], h[j]))
    && (forall j :: 2 <= j <= len && j / 2 == k && k / 2 >= k0 && k > 1 ==> Smaller(tree, depth, h[k / 2], h[j]))
  }

  /** Moving the smallest son up keeps that. */
  lemma SiftStep(h: seq<nat>, len: nat, tree: seq<CtData>, depth: seq<nat>, k0: nat, k: nat, j: nat)
    requires Nodes(h, len, tree, depth) && 1 <= k0 <= k && 2 <= j <= len && j / 2 == k
    requires Sifting(h, len, tree, depth, k0, k)
    requires forall i :: 2 <= i <= len && i / 2 == k ==> Smaller(tree, depth, h[j], h[i])
    requires Smaller(tree, depth, h[j], h[k])
    ensures var h1 := h[k := h[j]][j := h[k]];
            Nodes(h1, len, tree, depth) && Sifting(h1, len, tree, depth, k0, j)
  {
  }

  lemma SiftDone(h: seq<nat>, len: nat, tree: seq<CtData>, depth: seq<nat>, k0: nat, k: nat)
    requires Nodes(h, len, tree, depth) && Sifting(h, len, tree, depth, k0, k)
    requires forall i :: 2 <= i <= len && i / 2 == k ==> Smaller(tree, depth, h[k], h[i])
    ensures Ordered(h, len, tree, depth, k0)
  {
  }

  /** The smaller of the sons at j and j + 1. */
  method SmallerSon(heap: array<nat>, len: nat, tree: array<CtData>, depth: array<nat>, j: nat) returns (son: nat)
    requires 2 <= j <= len && Nodes(heap[..], len, tree[..], depth[..]) && j % 2 == 0
    ensures 2 <= son <= len && son / 2 == j / 2
    ensures forall i :: 2 <= i <= len && i / 2 == j / 2 ==> Smaller(tree[..], depth[..], heap[son], heap[i])
  {
    assert heap[..][j] == heap[j];
    son := j;
    if j < len {
      assert heap[..][j + 1] == heap[j + 1];
      if Smaller(tree[..], depth[..], heap[j + 1], heap[j]) {
        son := j + 1;
      }
    }
  }

  /** Restores the heap order below k by moving heap[k] down. */
  method PqDownHeap(heap: array<nat>, len: nat, tree: array<CtData>, depth: array<nat>, k0: nat)
    requires heap != depth && 1 <= k0 <= len && Nodes(heap[..], len, tree[..], depth[..])
    requires Ordered(heap[..], len, tree[..], depth[..], k0 + 1)
    modifies heap
    ensures Nodes(heap[..], len, tree[..], depth[..]) && Ordered(heap[..], len, tree[..], depth[..], k0)
    ensures Elements(heap[..], len) == old(Elements(heap[..], len))
    ensures forall i :: 0 <= i < heap.Length && !(k0 <= i <= len) ==> heap[i] == old(heap[i])
  {
    hide Smaller, Elements;
    var k := k0;
    var v := heap[k];
    var j := 2 * k;
    ghost var h := heap[..];   // the heap with v put back at k
    ghost var t, d := tree[..], depth[..];
    while j <= len
      invariant k0 <= k <= len && j == 2 * k && h == heap[..][k := v]
      invariant Nodes(h, len, t, d) && Sifting(h, len, t, d, k0, k) && Nodes(heap[..], len, t, d)
      invariant Elements(h, len) == old(Elements(heap[..], len))
      invariant forall i :: 0 <= i < heap.Length && !(k0 <= i <= len) ==> heap[i] == old(heap[i])
      decreases len - k
    {
      j := SmallerSon(heap, len, tree, depth, j);
      assert forall i :: 2 <= i <= len && i / 2 == k ==> h[i] == heap[i];
      if Smaller(tree[..], depth[..], v, heap[j]) {
        SonsLarger(h, len, t, d, k, j);
        break;
      }
      NotSmaller(t, d, v, heap[j]);
      SiftStep(h, len, t, d, k0, k, j);
      Swapped(h, len, k, j);
      h := h[k := h[j]][j := h[k]];
      heap[k] := heap[j];
      k := j;
      j := 2 * j;
    }
    SiftDone(h, len, t, d, k0, k);
    heap[k] := v;
    assert heap[..] == h;
  }

  lemma NotSmaller(tree: seq<CtData>, depth: seq<nat>, n: nat, m: nat)
    requires n < |tree| && m < |tree| && n < |depth| && m < |depth| && !Smaller(tree, depth, n, m)
    ensures Smaller(tree, depth, m, n)
  {
  }

  lemma SonsLarger(h: seq<nat>, len: nat, tree: seq<CtData>, depth: seq<nat>, k: nat, j: nat)
    requires Nodes(h, len, tree, depth) && 1 <= k <= len && 2 <= j <= len
    requires forall i :: 2 <= i <= len && i / 2 == k ==> Smaller(tree, depth, h[j], h[i])
    requires Smaller(tree, depth, h[k], h[j])
    ensures forall i :: 2 <= i <= len && i / 2 == k ==> Smaller(tree, depth, h[k], h[i])
  {
  }

  /** The first element is the least. */
  lemma {:induction false} Least(h: seq<nat>, len: nat, tree: seq<CtData>, depth: seq<nat>, j: nat)
    requires Nodes(h, len, tree, depth) && Ordered(h, len, tree, depth, 1) && 1 <= j <= len
    ensures Smaller(tree, depth, h[1], h[j])
  {
    if j > 1 {
      Least(h, len, tree, depth, j / 2);
    }
  }

  lemma LeastElement(h: seq<nat>, len: nat, tree: seq<CtData>, depth: seq<nat>, x: nat)
    requires Nodes(h, len, tree, depth) && Ordered(h, len, tree, depth, 1) && x in Elements(h, len)
    ensures x < |tree| && h[1] < |tree| && tree[h[1]].fc <= tree[x].fc
  {
    var i :| 0 <= i < len && h[1..len + 1][i] == x;
    Least(h, len, tree, depth, i + 1);
  }

  /** Replacing the first element by the last one and dropping the last removes the first element. */
  lemma Removed(h: seq<nat>, len: nat)
    requires 1 <= len < |h|
    ensures Elements(h[1 := h[len]], len - 1) == Elements(h, len) - multiset{h[1]}
  {
    var h1 := h[1 := h[len]];
    if len == 1 {
      assert h[1..2] == [h[1]];
      assert h1[1..1] == [];
    } else {
      var rest, last := h[2..len], h[len];
      assert h[1..len + 1] == [h[1]] + rest + [last];
      assert h1[1..len] == [last] + rest;
      assert Elements(h, len) == multiset{h[1]} + multiset(rest) + multiset{last};
      assert Elements(h1, len - 1) == multiset{last} + multiset(rest);
    }
  }

  lemma Replaced(h: seq<nat>, len: nat, x: nat)
    requires 1 <= len < |h|
    ensures Elements(h[1 := x], len) == Elements(h, len) - multiset{h[1]} + multiset{x}
  {
    assert h[1..len + 1] == [h[1]] + h[2..len + 1];
    assert h[1 := x][1..len + 1] == [x] + h[2..len + 1];
  }
}
