/**
 Canonical prefix codes (section 3.2.2 of RFC 1951).

 A code of len bits owns an interval of the 15-bit strings, those that start with it. In the
 order of (length, symbol) the canonical codes tile [0, 2^15) from the left, which is what every
 theorem below uses: disjoint intervals are prefix-freeness, a full tiling is completeness.
 */
module Canonical {
  import opened Shift
  import opened Bits

  const MAXBITS := 15

  /** Code lengths by symbol; 0 marks a symbol that has no code. */
  ghost predicate ValidLens(lens: seq<nat>)
  {
    forall i :: 0 <= i < |lens| ==> lens[i] <= MAXBITS
  }

  /** How many symbols have length l. */
  function Count(lens: seq<nat>, l: nat): nat
  {
    if lens == [] then 0
    else Count(lens[..|lens| - 1], l) + (if lens[|lens| - 1] == l then 1 else 0)
  }

  /** The first code of length l: step 2 of the algorithm in section 3.2.2. */
  function NextCode(lens: seq<nat>, l: nat): nat
  {
    if l <= 1 then 0 else 2 * (NextCode(lens, l - 1) + Count(lens, l - 1))
  }

  /** The number of l-bit strings that start with a code of at most l bits. */
  function Used(lens: seq<nat>, l: nat): nat
  {
    NextCode(lens, l) + if l == 0 then 0 else Count(lens, l)
  }

  ghost predicate HasCode(lens: seq<nat>, s: nat)
  {
    s < |lens| && lens[s] > 0
  }

  /** The code of symbol s: step 3 of the algorithm in section 3.2.2. */
  function Code(lens: seq<nat>, s: nat): nat
    requires s < |lens|
  {
    NextCode(lens, lens[s]) + Count(lens[..s], lens[s])
  }

  /** No more codes than there is room for. */
  ghost predicate NotOver(lens: seq<nat>)
  {
    Used(lens, MAXBITS) <= Pow2(MAXBITS)
  }

  /** Every 15-bit string starts with a code. */
  ghost predicate Complete(lens: seq<nat>)
  {
    Used(lens, MAXBITS) == Pow2(MAXBITS)
  }

  ghost predicate NoCodes(lens: seq<nat>)
  {
    forall i :: 0 <= i < |lens| ==> lens[i] == 0
  }

  // ---------- counting ----------

  lemma {:induction false} CountAppend(a: seq<nat>, b: seq<nat>, l: nat)
    ensures Count(a + b, l) == Count(a, l) + Count(b, l)
  {
    if b == [] {
      assert a + b == a;
    } else {
      CountAppend(a, b[..|b| - 1], l);
      assert (a + b)[..|a + b| - 1] == a + b[..|b| - 1];
    }
  }

  lemma CountPrefix(lens: seq<nat>, s: nat, t: nat, l: nat)
    requires s <= t <= |lens|
    ensures Count(lens[..s], l) <= Count(lens[..t], l) <= Count(lens, l)
    ensures s < t && lens[s] == l ==> Count(lens[..s], l) + 1 <= Count(lens[..t], l)
  {
    assert lens == lens[..t] + lens[t..];
    CountAppend(lens[..t], lens[t..], l);
    assert lens[..t] == lens[..s] + lens[s..t];
    CountAppend(lens[..s], lens[s..t], l);
    if s < t && lens[s] == l {
      assert lens[s..t] == [l] + lens[s + 1..t];
      CountAppend([l], lens[s + 1..t], l);
    }
  }

  /** The symbol of a given rank among those of length l. */
  lemma {:induction false} SymbolOfRank(lens: seq<nat>, l: nat, r: nat) returns (s: nat)
    requires r < Count(lens, l)
    ensures s < |lens| && lens[s] == l && Count(lens[..s], l) == r
  {
    var n := |lens| - 1;
    if lens[n] == l && Count(lens[..n], l) == r {
      s := n;
    } else {
      s := SymbolOfRank(lens[..n], l, r);
      assert lens[..n][..s] == lens[..s];
    }
  }

  lemma {:induction false} CountZero(lens: seq<nat>, l: nat)
    requires forall i :: 0 <= i < |lens| ==> lens[i] != l
    ensures Count(lens, l) == 0
  {
    if lens != [] {
      CountZero(lens[..|lens| - 1], l);
    }
  }

  lemma CountPositive(lens: seq<nat>, s: nat)
    requires s < |lens|
    ensures Count(lens, lens[s]) > 0
  {
    CountPrefix(lens, s, s + 1, lens[s]);
  }

  /** The number of codes shorter than l. */
  function Below(lens: seq<nat>, l: nat): nat
  {
    if l <= 1 then 0 else Below(lens, l - 1) + Count(lens, l - 1)
  }

  lemma {:induction false} BelowMonotone(lens: seq<nat>, l: nat, m: nat)
    requires l <= m
    ensures Below(lens, l) <= Below(lens, m)
    ensures 1 <= l < m ==> Below(lens, l) + Count(lens, l) <= Below(lens, m)
  {
    if l < m {
      BelowMonotone(lens, l, m - 1);
    }
  }

  lemma {:induction false} BelowAtMost(lens: seq<nat>, l: nat)
    ensures Below(lens, l) <= |lens|
  {
    if lens == [] {
      BelowEmpty(l);
    } else {
      BelowAtMost(lens[..|lens| - 1], l);
      BelowLast(lens, l);
    }
  }

  lemma {:induction false} BelowEmpty(l: nat)
    ensures Below([], l) == 0
  {
    if l > 1 {
      BelowEmpty(l - 1);
    }
  }

  lemma {:induction false} BelowLast(lens: seq<nat>, l: nat)
    requires lens != []
    ensures var last := lens[|lens| - 1];
            Below(lens, l) == Below(lens[..|lens| - 1], l) + if 1 <= last < l then 1 else 0
  {
    if l > 1 {
      BelowLast(lens, l - 1);
    }
  }

  // ---------- the tiling ----------

  /** The codes longer than l start after the strings used up by the codes of at most l bits. */
  lemma {:induction false} NextCodeAfter(lens: seq<nat>, l: nat, m: nat)
    requires l < m
    ensures NextCode(lens, m) >= Shl(Used(lens, l), m - l)
  {
    if m == l + 1 {
      assert Shl(Used(lens, l), 1) == 2 * Shl(Used(lens, l), 0);
    } else {
      NextCodeAfter(lens, l, m - 1);
    }
  }

  lemma UsedFits(lens: seq<nat>, l: nat)
    requires NotOver(lens) && l <= MAXBITS
    ensures Used(lens, l) <= Pow2(l)
  {
    if l < MAXBITS {
      NextCodeAfter(lens, l, MAXBITS);
      ShlPow2(l, MAXBITS - l);
      ShlCancel(Used(lens, l), Pow2(l), MAXBITS - l);
    }
  }

  lemma CodeFits(lens: seq<nat>, s: nat)
    requires NotOver(lens) && ValidLens(lens) && HasCode(lens, s)
    ensures Code(lens, s) < Used(lens, lens[s]) <= Pow2(lens[s])
  {
    CountPrefix(lens, s, s + 1, lens[s]);
    CountPrefix(lens, s + 1, |lens|, lens[s]);
    UsedFits(lens, lens[s]);
  }

  /** (length, symbol) order. */
  predicate Before(lens: seq<nat>, s: nat, t: nat)
    requires s < |lens| && t < |lens|
  {
    lens[s] < lens[t] || (lens[s] == lens[t] && s < t)
  }

  /** The interval of s ends at or before the start of the interval of t. */
  lemma Ordered(lens: seq<nat>, s: nat, t: nat)
    requires HasCode(lens, s) && HasCode(lens, t) && Before(lens, s, t)
    ensures lens[s] <= lens[t]
    ensures Shl(Code(lens, s) + 1, lens[t] - lens[s]) <= Code(lens, t)
  {
    if lens[s] == lens[t] {
      CountPrefix(lens, s, t, lens[s]);
    } else {
      CountPrefix(lens, s, s + 1, lens[s]);
      CountPrefix(lens, s + 1, |lens|, lens[s]);
      NextCodeAfter(lens, lens[s], lens[t]);
      ShlLe(Code(lens, s) + 1, Used(lens, lens[s]), lens[t] - lens[s]);
    }
  }

  // ---------- bits ----------

  /** The code of s, in the order in which it is sent. */
  function SymBits(lens: seq<nat>, s: nat): (b: Bits)
    requires s < |lens|
    ensures |b| == lens[s]
  {
    CodeBits(Code(lens, s), lens[s])
  }

  lemma {:induction false} CodeBitsPrefix(c: nat, m: nat, n: nat)
    ensures CodeBits(c, m + n)[..m] == CodeBits(Shr(c, n), m)
  {
    if n == 0 {
    } else {
      CodeBitsPrefix(c / 2, m, n - 1);
      assert m + n - 1 == m + (n - 1);
    }
  }

  lemma CodeBitsInjective(c: nat, d: nat, n: nat)
    requires c < Pow2(n) && d < Pow2(n) && CodeBits(c, n) == CodeBits(d, n)
    ensures c == d
  {
    ValOfCodeBits(c, n);
    ValOfCodeBits(d, n);
    RevInjective(c, d, n);
  }

  /** Only s itself has a code that starts with the code of s. */
  lemma Alone(lens: seq<nat>, s: nat, t: nat)
    requires ValidLens(lens) && NotOver(lens) && HasCode(lens, s) && HasCode(lens, t)
    requires lens[s] <= lens[t] && Shr(Code(lens, t), lens[t] - lens[s]) == Code(lens, s)
    ensures s == t
  {
    var n := lens[t] - lens[s];
    Split(Code(lens, t), n);
    ShlLess(Code(lens, s), Code(lens, s) + 1, n);
    if Before(lens, s, t) {
      Ordered(lens, s, t);
    } else if s != t {
      Ordered(lens, t, s);
    }
  }

  /** No code is a prefix of another. */
  lemma PrefixFree(lens: seq<nat>, s: nat, t: nat)
    requires ValidLens(lens) && NotOver(lens) && HasCode(lens, s) && HasCode(lens, t)
    requires lens[s] <= lens[t] && SymBits(lens, t)[..lens[s]] == SymBits(lens, s)
    ensures s == t
  {
    var m, n := lens[s], lens[t] - lens[s];
    var c := Code(lens, t);
    CodeBitsPrefix(c, m, n);
    CodeFits(lens, s);
    CodeFits(lens, t);
    ShrBound(c, m, n);
    CodeBitsInjective(Shr(c, n), Code(lens, s), m);
    Alone(lens, s, t);
  }

  /** The code of s as the low bits of a bit buffer: its first bit lowest. */
  function Reversed(lens: seq<nat>, s: nat): (r: nat)
    requires s < |lens|
    ensures r < Pow2(lens[s])
  {
    Rev(Code(lens, s), lens[s])
  }

  /** The bit buffer h starts with the code of s. */
  ghost predicate StartsWith(lens: seq<nat>, s: nat, h: nat)
    requires s < |lens|
  {
    Low(h, lens[s]) == Reversed(lens, s)
  }

  /** A buffer that starts with the code of t starts with the code of no other symbol. */
  lemma AloneReversed(lens: seq<nat>, s: nat, t: nat, h: nat)
    requires ValidLens(lens) && NotOver(lens) && HasCode(lens, s) && HasCode(lens, t)
    requires lens[s] <= lens[t] && StartsWith(lens, s, h) && StartsWith(lens, t, h)
    ensures s == t
  {
    var m, n := lens[s], lens[t] - lens[s];
    var c := Code(lens, t);
    CodeFits(lens, s);
    CodeFits(lens, t);
    RevHigh(c, m, n);
    LowLow(h, m, m + n);
    RevInjective(Shr(c, n), Code(lens, s), m);
    Alone(lens, s, t);
  }

  /** With a complete code every bit buffer, padded with zeros or not, starts with some code. */
  lemma Covered(lens: seq<nat>, h: nat) returns (s: nat)
    requires ValidLens(lens) && Complete(lens)
    ensures HasCode(lens, s) && StartsWith(lens, s, h)
  {
    var x := Rev(h, MAXBITS);
    assert Shl(Used(lens, MAXBITS), 0) == Pow2(MAXBITS);
    s := CoveredFrom(lens, x, MAXBITS);
    var m, n := lens[s], MAXBITS - lens[s];
    RevHigh(x, m, n);
    RevOfLow(h, MAXBITS);
    RevRev(Low(h, MAXBITS), MAXBITS);
    LowLow(h, m, MAXBITS);
  }

  lemma {:induction false} RevOfLow(h: nat, n: nat)
    ensures Rev(Low(h, n), n) == Rev(h, n)
  {
    if n > 0 {
      RevOfLow(h / 2, n - 1);
    }
  }

  lemma {:induction false} CoveredFrom(lens: seq<nat>, x: nat, l: nat) returns (s: nat)
    requires ValidLens(lens) && 1 <= l <= MAXBITS
    requires x < Shl(Used(lens, l), MAXBITS - l)
    ensures HasCode(lens, s) && Shr(x, MAXBITS - lens[s]) == Code(lens, s)
  {
    var n := MAXBITS - l;
    if x < Shl(NextCode(lens, l), n) {
      if l == 1 {
        ShlOne(n);
        assert false;
      }
      ShlShl(Used(lens, l - 1), 1, n);
      assert Shl(Used(lens, l - 1), 1) == 2 * Shl(Used(lens, l - 1), 0) == NextCode(lens, l);
      s := CoveredFrom(lens, x, l - 1);
    } else {
      ShrBetween(x, n, NextCode(lens, l), Used(lens, l));
      s := SymbolOfRank(lens, l, Shr(x, n) - NextCode(lens, l));
    }
  }
}
