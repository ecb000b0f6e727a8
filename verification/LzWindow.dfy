/**
 The window and the hash chains of deflate.c in terms of the whole input: window index i is input
 position base + i, and a chain only leads to earlier inserted positions with the same hash.
 */
module LzWindow {
  import opened Shift
  import opened Bits
  import opened Format
  import opened BlockCode
  import opened Hashing

  const MIN_MATCH := 3
  const MAX_MATCH := 258
  const MIN_LOOKAHEAD := MAX_MATCH + MIN_MATCH + 1

  /** The window holds the input from base on, end bytes of it. */
  ghost predicate Holds(win: seq<byte>, input: seq<byte>, base: nat, end: nat)
  {
    end <= |win| && |input| == base + end && win[..end] == input[base..]
  }

  function HashAt(p: HashParams, input: seq<byte>, q: nat): nat
    requires q + 2 < |input|
  {
    Hash(p, input[q], input[q + 1], input[q + 2])
  }

  /** An entry v of head or prev leads to an inserted position before top with hash h, or nowhere. */
  ghost predicate Leads(p: HashParams, input: seq<byte>, base: nat, ins: set<nat>, v: nat, before: nat, h: nat)
  {
    v == 0 || (base + v in ins && base + v < before && base + v + 2 < |input| && HashAt(p, input, base + v) == h)
  }

  /**
   The chains: ins are the inserted positions, all before top. Each head leads to a position with its
   hash, and each inserted position within one window size of top leads on to an earlier one with
   the same hash. Whatever else is in the tables is below top.
   */
  ghost predicate Chain(p: HashParams, wsize: nat, head: seq<nat>, prev: seq<nat>, input: seq<byte>, base: nat,
                        ins: set<nat>, top: nat)
  {
    && wsize > 0 && |head| == Pow2(p.bits) && |prev| == wsize && base % wsize == 0
    && (forall q :: q in ins ==> q < top && q + 2 < |input|)
    && (forall h: nat :: h < |head| ==> Leads(p, input, base, ins, head[h], top, h))
    && (forall q :: q in ins && q + wsize >= top && q + 2 < |input| ==>
          Leads(p, input, base, ins, prev[q % wsize], q, HashAt(p, input, q)))
    && (forall i: nat :: i < wsize ==> prev[i] == 0 || base + prev[i] < top)
  }

  // ---------- arithmetic of slots ----------

  /** Positions less than one window size apart have different slots. */
  lemma SlotsDiffer(a: nat, b: nat, w: nat)
    requires w > 0 && b < a < b + w
    ensures a % w != b % w
  {
    if a % w == b % w {
      var qa, qb := a / w, b / w;
      assert a - b == w * (qa - qb);
      if qa - qb >= 1 {
        Product(w, qa - qb);
      } else if qa - qb <= -1 {
        Product(w, qb - qa);
      }
    }
  }

  lemma Product(w: nat, k: int)
    requires k >= 1
    ensures w * k >= w
  {
  }

  lemma SlotOf(base: nat, i: nat, w: nat)
    requires w > 0 && base % w == 0
    ensures (base + i) % w == i % w
  {
    assert base == w * (base / w);
    SlotShift(i, base / w, w);
  }

  lemma {:induction false} SlotShift(i: nat, k: nat, w: nat)
    requires w > 0
    ensures (w * k + i) % w == i % w
  {
    var r, q := i % w, i / w;
    assert w * k + i == (q + k) * w + r;
    DivModSum(q + k, w, r);
  }

  lemma DivModSum(a: int, w: int, r: int)
    requires w > 0 && 0 <= r < w
    ensures (a * w + r) % w == r
  {
    Shift.DivModUnique(a, w, r);
  }

  // ---------- steps ----------

  /** Where the chain leads to from the place of an inserted string. */
  lemma LeadsOn(p: HashParams, wsize: nat, head: seq<nat>, prev: seq<nat>, input: seq<byte>, base: nat, ins: set<nat>,
                top: nat, i: nat)
    requires Chain(p, wsize, head, prev, input, base, ins, top)
    requires base + i in ins && base + i + wsize >= top && base + i + 2 < |input|
    ensures wsize > 0 && |prev| == wsize
    ensures Leads(p, input, base, ins, prev[i % wsize], base + i, HashAt(p, input, base + i))
  {
    hide Leads, HashAt;
    SlotOf(base, i, wsize);
  }

  /** INSERT_STRING keeps the chains, and gives the head of the chain of the inserted string. */
  lemma Inserted(p: HashParams, wsize: nat, head: seq<nat>, prev: seq<nat>, input: seq<byte>, base: nat, ins: set<nat>,
                 top: nat, str: nat)
    requires Chain(p, wsize, head, prev, input, base, ins, top) && top <= base + str && base + str + 2 < |input|
    ensures HashAt(p, input, base + str) < |head| && str % wsize < |prev|
    ensures var h := HashAt(p, input, base + str);
            && Leads(p, input, base, ins, head[h], base + str, h)
            && Chain(p, wsize, head[h := str], prev[str % wsize := head[h]], input, base, ins + {base + str},
                base + str + 1)
  {
    hide Hash, Pow2;
    var q0, h := base + str, HashAt(p, input, base + str);
    var head1, prev1, ins1 := head[h := str], prev[str % wsize := head[h]], ins + {q0};
    SlotOf(base, str, wsize);
    assert Leads(p, input, base, ins, head[h], top, h);
    forall x: nat | x < |head1|
      ensures Leads(p, input, base, ins1, head1[x], q0 + 1, x)
    {
      assert Leads(p, input, base, ins, head[x], top, x);
    }
    forall q | q in ins1 && q + wsize >= q0 + 1 && q + 2 < |input|
      ensures Leads(p, input, base, ins1, prev1[q % wsize], q, HashAt(p, input, q))
    {
      if q != q0 {
        SlotsDiffer(q0, q, wsize);
        assert Leads(p, input, base, ins, prev[q % wsize], q, HashAt(p, input, q));
      }
    }
    forall i: nat | i < wsize
      ensures prev1[i] == 0 || base + prev1[i] < q0 + 1
    {
    }
  }

  /** The entries after the window has slid. */
  function Slid(t: seq<nat>, wsize: nat): (r: seq<nat>)
    ensures |r| == |t| && forall i :: 0 <= i < |t| ==> r[i] == if t[i] >= wsize then t[i] - wsize else 0
  {
    seq(|t|, i requires 0 <= i < |t| => if t[i] >= wsize then t[i] - wsize else 0)
  }

  /** Sliding the window by one window size keeps the chains. */
  lemma SlideKeeps(p: HashParams, wsize: nat, head: seq<nat>, prev: seq<nat>, input: seq<byte>, base: nat,
                   ins: set<nat>, top: nat)
    requires Chain(p, wsize, head, prev, input, base, ins, top)
    ensures Chain(p, wsize, Slid(head, wsize), Slid(prev, wsize), input, base + wsize, ins, top)
  {
    var head1, prev1 := Slid(head, wsize), Slid(prev, wsize);
    SlotOf(base, wsize, wsize);
    assert (base + wsize) % wsize == 0;
    forall h: nat | h < |head1|
      ensures Leads(p, input, base + wsize, ins, head1[h], top, h)
    {
      assert Leads(p, input, base, ins, head[h], top, h);
    }
    forall q | q in ins && q + wsize >= top && q + 2 < |input|
      ensures Leads(p, input, base + wsize, ins, prev1[q % wsize], q, HashAt(p, input, q))
    {
      assert Leads(p, input, base, ins, prev[q % wsize], q, HashAt(p, input, q));
    }
  }

  /** More input changes no hash. */
  lemma MoreKeeps(p: HashParams, wsize: nat, head: seq<nat>, prev: seq<nat>, input: seq<byte>, more: seq<byte>,
                  base: nat, ins: set<nat>, top: nat)
    requires Chain(p, wsize, head, prev, input, base, ins, top)
    ensures Chain(p, wsize, head, prev, input + more, base, ins, top)
  {
    forall h: nat | h < |head|
      ensures Leads(p, input + more, base, ins, head[h], top, h)
    {
      assert Leads(p, input, base, ins, head[h], top, h);
    }
    forall q | q in ins && q + wsize >= top && q + 2 < |input + more|
      ensures Leads(p, input + more, base, ins, prev[q % wsize], q, HashAt(p, input + more, q))
    {
      assert Leads(p, input, base, ins, prev[q % wsize], q, HashAt(p, input, q));
    }
  }

  /** The tables forget all history. */
  lemma ClearKeeps(p: HashParams, wsize: nat, head: seq<nat>, prev: seq<nat>, input: seq<byte>, base: nat,
                   ins: set<nat>, top: nat, head1: seq<nat>)
    requires Chain(p, wsize, head, prev, input, base, ins, top)
    requires |head1| == |head| && forall h :: 0 <= h < |head1| ==> head1[h] == 0
    ensures Chain(p, wsize, head1, prev, input, base, ins, top)
  {
  }

  lemma TopRises(p: HashParams, wsize: nat, head: seq<nat>, prev: seq<nat>, input: seq<byte>, base: nat, ins: set<nat>,
                 top: nat, top1: nat)
    requires Chain(p, wsize, head, prev, input, base, ins, top) && top <= top1
    ensures Chain(p, wsize, head, prev, input, base, ins, top1)
  {
    forall h: nat | h < |head|
      ensures Leads(p, input, base, ins, head[h], top1, h)
    {
      assert Leads(p, input, base, ins, head[h], top, h);
    }
  }

  lemma ChainStarts(p: HashParams, wsize: nat, head: seq<nat>, prev: seq<nat>)
    requires wsize > 0 && |head| == Pow2(p.bits) && |prev| == wsize
    requires (forall i :: 0 <= i < |head| ==> head[i] == 0) && forall i :: 0 <= i < wsize ==> prev[i] == 0
    ensures Chain(p, wsize, head, prev, [], 0, {}, 0)
  {
  }

  // ---------- distances ----------

  /** No copy reaches back further than n. */
  ghost predicate InReach(toks: seq<Token>, n: nat)
  {
    forall t :: t in toks && t.Copy? ==> t.distance <= n
  }

  lemma ReachAppend(a: seq<Token>, b: seq<Token>, n: nat)
    requires InReach(a, n) && InReach(b, n)
    ensures InReach(a + b, n)
  {
  }

  lemma ReachOne(t: Token, n: nat)
    requires t.Copy? ==> t.distance <= n
    ensures InReach([t], n)
  {
  }

  // ---------- matches ----------

  /** The len bytes at position at are also those at position start before it. */
  ghost predicate Matching(input: seq<byte>, start: nat, at: nat, len: nat)
  {
    start < at && at + len <= |input| && forall k :: at <= k < at + len ==> input[k - (at - start)] == input[k]
  }

  lemma MatchingMore(input: seq<byte>, more: seq<byte>, start: nat, at: nat, len: nat)
    requires Matching(input, start, at, len)
    ensures Matching(input + more, start, at, len)
  {
  }

  /** Copying a match reproduces the input. */
  lemma {:induction false} CopyIsInput(input: seq<byte>, start: nat, at: nat, len: nat)
    requires Matching(input, start, at, len)
    ensures CopyBytes(input[..at], len, at - start) == input[..at + len]
    decreases len
  {
    if len > 0 {
      CopyIsInput(input, start, at, len - 1);
      CopySnoc(input[..at], len - 1, at - start);
      assert input[at + len - 1 - (at - start)] == input[at + len - 1];
      assert input[..at + len] == input[..at + len - 1] + [input[at + len - 1]];
    }
  }
}
