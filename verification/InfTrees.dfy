/** inflate_table (inftrees.c): from code lengths to a two-level decoding table, built in place. */
module InfTrees {
  import opened Shift
  import opened Bits
  import opened Canonical
  import opened InfTreesSpec

  const ENOUGH := 2048
  const MAXD := 592

  // ---------- counting and sorting ----------

  ghost predicate Counts(count: seq<nat>, lens: seq<nat>)
  {
    |count| == MAXBITS + 1 && forall l :: 0 <= l <= MAXBITS ==> count[l] == Count(lens, l)
  }

  method CountLengths(lens: seq<nat>) returns (count: array<nat>)
    requires ValidLens(lens)
    ensures fresh(count) && Counts(count[..], lens)
  {
    count := new nat[MAXBITS + 1](_ => 0);
    for sym := 0 to |lens|
      invariant forall l :: 0 <= l <= MAXBITS ==> count[l] == Count(lens[..sym], l)
    {
      assert lens[..sym + 1][..sym] == lens[..sym];
      count[lens[sym]] := count[lens[sym]] + 1;
    }
    assert lens[..|lens|] == lens;
  }

  ghost predicate Sorted(work: seq<nat>, lens: seq<nat>)
  {
    forall s: nat :: HasCode(lens, s) ==> Place(lens, s) < |work| && work[Place(lens, s)] == s
  }

  lemma PlaceFits(lens: seq<nat>, s: nat)
    requires HasCode(lens, s)
    ensures Place(lens, s) < |lens|
  {
    PlaceBounds(lens, s);
    BelowAtMost(lens, lens[s] + 1);
  }

  /** offs[l] is the number of codes shorter than l. */
  lemma FirstBelow(lens: seq<nat>, count: seq<nat>)
    requires Counts(count, lens)
    ensures Below(lens, 1) == 0 && |count| == MAXBITS + 1
  {
    assert Below(lens, 1) == Below(lens, 0);
  }

  lemma BelowStep(lens: seq<nat>, count: seq<nat>, len: nat)
    requires Counts(count, lens) && 1 <= len < MAXBITS
    ensures Below(lens, len + 1) == Below(lens, len) + count[len]
  {
  }

  method Offsets(lens: seq<nat>, count: array<nat>) returns (offs: array<nat>)
    requires ValidLens(lens) && Counts(count[..], lens)
    ensures fresh(offs) && offs.Length == MAXBITS + 1
    ensures forall l :: 1 <= l <= MAXBITS ==> offs[l] == Below(lens, l)
  {
    hide Below, Counts, ValidLens;
    offs := new nat[MAXBITS + 1](_ => 0);
    FirstBelow(lens, count[..]);
    for len := 1 to MAXBITS
      invariant forall l :: 1 <= l <= len ==> offs[l] == Below(lens, l)
    {
      BelowStep(lens, count[..], len);
      offs[len + 1] := offs[len] + count[len];
    }
  }

  /** The first n symbols have been entered in sorted order. */
  ghost predicate SortedUpTo(work: seq<nat>, lens: seq<nat>, n: nat)
  {
    forall s: nat :: s < n && HasCode(lens, s) ==> Place(lens, s) < |work| && work[Place(lens, s)] == s
  }

  lemma SortStep(work: seq<nat>, lens: seq<nat>, n: nat)
    requires SortedUpTo(work, lens, n) && HasCode(lens, n) && |work| == |lens|
    ensures Place(lens, n) < |work| && SortedUpTo(work[Place(lens, n) := n], lens, n + 1)
  {
    PlaceFits(lens, n);
    forall s: nat | s < n && HasCode(lens, s)
      ensures Place(lens, s) != Place(lens, n)
    {
      if Place(lens, s) == Place(lens, n) {
        PlaceInjective(lens, s, n);
      }
    }
  }

  method SortSymbols(lens: seq<nat>, count: array<nat>) returns (work: array<nat>)
    requires ValidLens(lens) && Counts(count[..], lens)
    ensures fresh(work) && Sorted(work[..], lens)
  {
    var offs := Offsets(lens, count);
    work := new nat[|lens|](_ => 0);
    for sym := 0 to |lens|
      invariant forall l :: 1 <= l <= MAXBITS ==> offs[l] == Below(lens, l) + Count(lens[..sym], l)
      invariant SortedUpTo(work[..], lens, sym)
    {
      assert lens[..sym + 1][..sym] == lens[..sym];
      if lens[sym] != 0 {
        SortStep(work[..], lens, sym);
        work[offs[lens[sym]]] := sym;
        offs[lens[sym]] := offs[lens[sym]] + 1;
      }
    }
  }

  /** The number of 15-bit strings without a code; negative when some length has more codes than strings. */
  method CodesLeft(lens: seq<nat>, count: array<nat>) returns (left: int)
    requires ValidLens(lens) && Counts(count[..], lens)
    ensures left < 0 <==> !NotOver(lens)
    ensures left >= 0 ==> left == Pow2(MAXBITS) - Used(lens, MAXBITS)
  {
    left := 1;
    for len := 1 to MAXBITS + 1
      invariant left == Pow2(len - 1) - Used(lens, len - 1)
    {
      left := 2 * left;
      left := left - count[len];
      assert left == Pow2(len) - Used(lens, len);
      if left < 0 {
        if NotOver(lens) {
          UsedFits(lens, len);
        }
        return;
      }
    }
  }

  // ---------- one symbol ----------

  /** The slots of quotient q and above hold e. */
  ghost predicate PartFilled(t0: seq<Entry>, t1: seq<Entry>, next: nat, curr: nat, start: nat, n: nat, e: Entry, q: nat)
  {
    && |t1| == |t0| && next + Pow2(curr) <= |t0|
    && (forall i :: 0 <= i < Pow2(curr) ==>
          t1[next + i] == if Low(i, n) == start && Shr(i, n) >= q then e else t0[next + i])
    && (forall k :: 0 <= k < |t0| && !(next <= k < next + Pow2(curr)) ==> t1[k] == t0[k])
  }

  lemma FillOne(t0: seq<Entry>, t1: seq<Entry>, next: nat, curr: nat, start: nat, n: nat, e: Entry, q: nat)
    requires q > 0 && start < Pow2(n) && Shl(q, n) <= Pow2(curr)
    requires PartFilled(t0, t1, next, curr, start, n, e, q)
    ensures Shl(q - 1, n) == Shl(q, n) - Pow2(n)
    ensures PartFilled(t0, t1[next + (start + Shl(q - 1, n)) := e], next, curr, start, n, e, q - 1)
  {
    ShlOne(n);
    ShlAdd(q - 1, 1, n);
    Join(q - 1, start, n);
    var t2 := t1[next + (start + Shl(q - 1, n)) := e];
    forall i | 0 <= i < Pow2(curr)
      ensures t2[next + i] == if Low(i, n) == start && Shr(i, n) >= q - 1 then e else t0[next + i]
    {
      Split(i, n);
    }
  }

  /** next[start + fill] = e for every multiple fill of 2^n below 2^curr. */
  method FillEntries(t: array<Entry>, next: nat, curr: nat, start: nat, n: nat, e: Entry)
    requires n <= curr && start < Pow2(n) && next + Pow2(curr) <= t.Length
    modifies t
    ensures FilledWith(old(t[..]), t[..], next, curr, start, n, e)
  {
    ghost var q: nat := Pow2(curr - n);
    ShlPow2(curr - n, n);
    var incr := Pow2(n);
    var fill := Pow2(curr);
    forall i | 0 <= i < Pow2(curr)
      ensures Shr(i, n) < q
    {
      ShrBound(i, curr - n, n);
    }
    while fill != 0
      invariant fill == Shl(q, n) && fill <= Pow2(curr)
      invariant PartFilled(old(t[..]), t[..], next, curr, start, n, e, q)
    {
      ShlOne(n);
      FillOne(old(t[..]), t[..], next, curr, start, n, e, q);
      fill := fill - incr;
      q := q - 1;
      t[next + (start + fill)] := e;
    }
  }

  /** The reversal of the code after c, or 0 when c is the last one of n bits. */
  function RevNext(c: nat, n: nat): nat
  {
    if c + 1 == Pow2(n) then 0 else Rev(c + 1, n)
  }

  lemma RevTop(c: nat, n: nat)
    requires n > 0
    ensures Shr(Rev(c, n), n - 1) == c % 2 && Low(Rev(c, n), n - 1) == Rev(c / 2, n - 1)
  {
    ShlOne(n - 1);
    Join(c % 2, Rev(c / 2, n - 1), n - 1);
  }

  lemma CarryOn(huff: nat, k: nat, c: nat)
    requires c < Pow2(k + 1) && Low(huff, k + 1) == Rev(c, k + 1) && Shr(huff, k) % 2 == 1
    ensures c / 2 < Pow2(k) && Low(huff, k) == Rev(c / 2, k) && RevNext(c / 2, k) == RevNext(c, k + 1)
  {
    BitAt(huff, k);
    RevTop(c, k + 1);
    LowLow(huff, k, k + 1);
  }

  lemma CarryStops(huff: nat, k: nat, c: nat)
    requires c < Pow2(k + 1) && Low(huff, k + 1) == Rev(c, k + 1) && Shr(huff, k) % 2 == 0
    ensures Low(huff, k) + Pow2(k) == RevNext(c, k + 1)
  {
    hide Low, Rev, Shr;
    BitAt(huff, k);
    RevTop(c, k + 1);
    LowLow(huff, k, k + 1);
    RevStep(c + 1, k + 1);
    assert c % 2 == 0 && (c + 1) / 2 == c / 2;
  }

  /** Adds one to a code that is stored backwards. */
  method BackIncrement(huff: nat, len: nat, ghost code: nat) returns (h: nat)
    requires len > 0 && code < Pow2(len) && huff == Rev(code, len)
    ensures h == RevNext(code, len)
  {
    hide Rev, Low, Shr, Pow2, RevNext;
    var n := len;   // incr is 1 << (n - 1), and 0 when n is 0
    ghost var c: nat := code;
    Small(huff, len);
    while n > 0 && Shr(huff, n - 1) % 2 == 1
      invariant n <= len && c < Pow2(n) && Low(huff, n) == Rev(c, n)
      invariant RevNext(c, n) == RevNext(code, len)
    {
      CarryOn(huff, n - 1, c);
      n := n - 1;
      c := c / 2;
    }
    if n > 0 {
      CarryStops(huff, n - 1, c);
      h := Low(huff, n - 1);
      h := h + Pow2(n - 1);
    } else {
      CarryOut(c);
      h := 0;
    }
  }

  lemma CarryOut(c: nat)
    requires c < Pow2(0)
    ensures RevNext(c, 0) == 0
  {
  }

  lemma BitAt(h: nat, k: nat)
    ensures Shr(h, k) % 2 == Shr(Low(h, k + 1), k)
  {
    LowShr(h, k, 1);
    assert Low(Shr(h, k), 1) == Shr(h, k) % 2 + 2 * Low(Shr(h, k) / 2, 0);
  }

  // ---------- moving along the sorted symbols ----------

  /** The place of a symbol in the sorted order: its length, and its rank among the codes of that length. */
  ghost predicate CountAt(lens: seq<nat>, max: nat, len: nat, r: nat, k: nat, c: nat)
  {
    && 1 <= len <= max <= MAXBITS && k == Below(lens, len) + r
    && HasCode(lens, c) && lens[c] == len && Count(lens[..c], len) == r
    && Below(lens, max + 1) == Below(lens, MAXBITS + 1) && Count(lens, max) > 0
  }

  /** What is left of the counts when the symbol at (len, r) is next. */
  ghost predicate Remaining(count: seq<nat>, lens: seq<nat>, len: nat, r: nat)
  {
    && |count| == MAXBITS + 1 && len <= MAXBITS && r <= Count(lens, len) && count[len] == Count(lens, len) - r
    && forall l :: len < l <= MAXBITS ==> count[l] == Count(lens, l)
  }

  lemma RankBelow(lens: seq<nat>, c: nat)
    requires HasCode(lens, c)
    ensures Count(lens[..c], lens[c]) < Count(lens, lens[c])
  {
    CountPrefix(lens, c, c + 1, lens[c]);
    CountPrefix(lens, c + 1, |lens|, lens[c]);
  }

  /** The symbol after c: either of the same length, or the first of the next length that has codes. */
  lemma Advance(lens: seq<nat>, max: nat, len: nat, r: nat, k: nat, c: nat) returns (len1: nat, r1: nat, c1: nat)
    requires ValidLens(lens) && CountAt(lens, max, len, r, k, c) && !(len == max && r + 1 == Count(lens, len))
    ensures CountAt(lens, max, len1, r1, k + 1, c1) && len <= len1
    ensures r1 == (if r + 1 < Count(lens, len) then r + 1 else 0)
    ensures len1 == len <==> r + 1 < Count(lens, len)
    ensures Code(lens, c1) == Shl(Code(lens, c) + 1, len1 - len)
  {
    hide NotOver, Rev;
    RankBelow(lens, c);
    if r + 1 < Count(lens, len) {
      len1, r1 := len, r + 1;
    } else {
      BelowMonotone(lens, len + 1, max);
      BelowMonotone(lens, max, max + 1);
      len1, r1 := Locate(lens, k + 1, max + 1);
      if len1 <= len {
        BelowMonotone(lens, len1 + 1, len + 1);
      }
      BelowMonotone(lens, len + 1, len1);
      NextCodeSkips(lens, len, len1);
    }
    c1 := SymbolOfRank(lens, len1, r1);
  }

  /** The last symbol ends exactly where the used part of the 15-bit strings ends. */
  lemma AtEnd(lens: seq<nat>, max: nat, len: nat, r: nat, k: nat, c: nat)
    requires CountAt(lens, max, len, r, k, c) && len == max && r + 1 == Count(lens, len)
    ensures Used(lens, MAXBITS) == Shl(Code(lens, c) + 1, MAXBITS - len)
  {
    if len < MAXBITS {
      BelowMonotone(lens, len + 1, MAXBITS);
      BelowMonotone(lens, MAXBITS, MAXBITS + 1);
      NextCodeSkips(lens, len, MAXBITS);
    }
  }

  // ---------- sub-tables ----------

  /** If the code after c has another prefix, that prefix is the next one, and the code its first. */
  lemma PrefixChanges(c: nat, n: nat)
    requires Shr(c + 1, n) != Shr(c, n)
    ensures c + 1 == Shl(Shr(c, n) + 1, n)
  {
    Split(c, n);
    if Low(c, n) + 1 < Pow2(n) {
      Join(Shr(c, n), Low(c, n) + 1, n);
    }
    ShlAdd(Shr(c, n), 1, n);
    ShlOne(n);
  }

  lemma ShrOfShl(x: nat, n: nat, d: nat)
    ensures Shr(Shl(x, d), n + d) == Shr(x, n)
  {
    Join(x, 0, d);
    ShrShr(Shl(x, d), d, n);
  }

  /** A sub-table of curr bits for the prefix pl, opened at length len0. */
  ghost predicate BigEnough(lens: seq<nat>, root: nat, max: nat, curr: nat, pl: nat, len0: nat)
  {
    && root < len0 <= root + curr <= max <= MAXBITS
    && (root + curr == max || Used(lens, root + curr) >= Shl(pl + 1, curr))
    && (root + curr > len0 ==> Used(lens, len0) < Shl(pl + 1, len0 - root))
  }

  /** A big enough sub-table takes every code of its prefix. */
  lemma FitsSub(lens: seq<nat>, root: nat, max: nat, curr: nat, pl: nat, len0: nat, c: nat)
    requires BigEnough(lens, root, max, curr, pl, len0) && HasCode(lens, c) && root < lens[c] <= max
    requires Prefix(lens, c, root) == pl
    ensures lens[c] <= root + curr
  {
    var len := lens[c];
    if len > root + curr {
      NextCodeAfter(lens, root + curr, len);
      ShlLe(Shl(pl + 1, curr), Used(lens, root + curr), len - root - curr);
      ShlShl(pl + 1, curr, len - root - curr);
      Split(Code(lens, c), len - root);
      ShlAdd(pl, 1, len - root);
      ShlOne(len - root);
    }
  }

  /** The size of the sub-table that starts at code pl << (len - root), found by looking ahead at the counts. */
  method SubTableBits(count: array<nat>, ghost lens: seq<nat>, len: nat, ghost r: nat, root: nat, max: nat,
                      ghost pl: nat)
    returns (curr: nat)
    requires root < len <= max <= MAXBITS && Remaining(count[..], lens, len, r)
    requires NextCode(lens, len) + r == Shl(pl, len - root)
    ensures BigEnough(lens, root, max, curr, pl, len)
  {
    curr := len - root;
    var left: int := Pow2(curr);
    ShlAdd(pl, 1, curr);
    ShlOne(curr);
    while curr + root < max
      invariant len <= root + curr <= max
      invariant left == Shl(pl + 1, curr) - NextCode(lens, root + curr) - (if root + curr == len then r else 0)
      invariant root + curr > len ==> Used(lens, len) < Shl(pl + 1, len - root)
    {
      left := left - count[curr + root];
      assert left == Shl(pl + 1, curr) - Used(lens, root + curr);
      if left <= 0 {
        break;
      }
      curr := curr + 1;
      left := 2 * left;
    }
  }

  /**
   Space. Every sub-table but the ones in which the code length changes is as large as the number of
   symbols it holds, and the length changes at most once per length: so the entries allotted before
   symbol k of length len are at most 2^root + k + (len - root - 1) * 2^(15 - root).
   */
  ghost predicate Within(root: nat, used: nat, k: nat, len: nat)
  {
    root < len <= MAXBITS && used <= Pow2(root) + k + Shl(len - root - 1, MAXBITS - root)
  }

  ghost predicate InSub(lens: seq<nat>, root: nat, max: nat, len: nat, k: nat, code: nat,
                        curr: nat, pl: nat, next: nat, k0: nat, len0: nat)
  {
    && BigEnough(lens, root, max, curr, pl, len0) && Within(root, next, k0, len0)
    && len0 <= len && k0 <= k
    && (len == len0 ==> k - k0 == code - Shl(pl, len0 - root))
  }

  /** The space claim when the sub-table of prefix pl has been filled and the next one opens. */
  lemma SpaceStep(lens: seq<nat>, root: nat, max: nat, len: nat, k: nat, c: nat, curr: nat, pl: nat, next: nat,
                  k0: nat, len0: nat, len1: nat)
    requires HasCode(lens, c) && lens[c] == len && len <= root + curr && len <= len1 <= MAXBITS
    requires InSub(lens, root, max, len, k, Code(lens, c), curr, pl, next, k0, len0)
    requires Code(lens, c) + 1 == Shl(pl + 1, len - root)
    requires len1 == len ==> Code(lens, c) + 1 < Used(lens, len)
    ensures Within(root, next + Pow2(curr), k + 1, len1)
  {
    var w := MAXBITS - root;
    if curr + root > len0 {
      assert len1 > len0;
      ShlLess(len0 - root - 1, len1 - root - 1, w);
      Pow2Monotone(curr, w);
    } else {
      ShlAdd(pl, 1, curr);
      ShlOne(curr);
      ShlLe(len0 - root - 1, len1 - root - 1, w);
    }
  }

  // ---------- one step of the main loop ----------

  /** After a symbol that is not the last, huff is the reversed code of the next symbol. */
  lemma NextHuff(lens: seq<nat>, c: nat, c1: nat)
    requires ValidLens(lens) && NotOver(lens) && HasCode(lens, c) && HasCode(lens, c1)
    requires lens[c] <= lens[c1] && Code(lens, c1) == Shl(Code(lens, c) + 1, lens[c1] - lens[c])
    ensures RevNext(Code(lens, c), lens[c]) == Reversed(lens, c1)
  {
    hide NotOver, ValidLens, Shl, Code, Used;
    var d := lens[c1] - lens[c];
    CodeFits(lens, c1);
    CodeFits(lens, c);
    ShlPow2(lens[c], d);
    RevAppendZeros(Code(lens, c) + 1, lens[c], d);
  }

  /** The first sub-table opens at a code whose bits after the root are all zero. */
  lemma OpensFirst(lens: seq<nat>, root: nat, c: nat, c1: nat)
    requires ValidLens(lens) && NotOver(lens) && HasCode(lens, c) && HasCode(lens, c1)
    requires lens[c] <= root < lens[c1] && Code(lens, c1) == Shl(Code(lens, c) + 1, lens[c1] - lens[c])
    ensures Code(lens, c1) == Shl(Prefix(lens, c1, root), lens[c1] - root)
  {
    var n := lens[c1] - root;
    var p := Shl(Code(lens, c) + 1, root - lens[c]);
    ShlShl(Code(lens, c) + 1, root - lens[c], n);
    Join(p, 0, n);
  }

  /** So does every later one, and its prefix is the next prefix. */
  lemma OpensNext(lens: seq<nat>, root: nat, c: nat, c1: nat)
    requires ValidLens(lens) && NotOver(lens) && HasCode(lens, c) && HasCode(lens, c1)
    requires root < lens[c] <= lens[c1] && Code(lens, c1) == Shl(Code(lens, c) + 1, lens[c1] - lens[c])
    requires Prefix(lens, c, root) != Prefix(lens, c1, root)
    ensures Prefix(lens, c1, root) == Prefix(lens, c, root) + 1
    ensures Code(lens, c) + 1 == Shl(Prefix(lens, c, root) + 1, lens[c] - root)
    ensures Code(lens, c1) == Shl(Prefix(lens, c1, root), lens[c1] - root)
  {
    hide Shr, Shl, NotOver, Used, Code;
    var code, n, d := Code(lens, c), lens[c] - root, lens[c1] - lens[c];
    ShrOfShl(code + 1, n, d);
    PrefixChanges(code, n);
    Join(Shr(code, n) + 1, 0, n);
    ShlShl(Shr(code, n) + 1, n, d);
  }

  ghost predicate LowIs(low: int, root: nat, pl: int)
  {
    pl < Pow2(root) && if pl < 0 then low == -1 && pl == -1 else low == Rev(pl, root)
  }

  /** What holds whenever symbol c, at place (len, r) of the sorted order, is about to be entered. */
  ghost predicate Filling(t: seq<Entry>, root: nat, kind: Kind, lens: seq<nat>, max: nat, len: nat, r: nat, sym: nat,
                          c: nat, drop: nat, curr: nat, next: nat, pl: int, k0: nat, len0: nat)
    requires |lens| <= MaxSymbols(kind)
  {
    && CountAt(lens, max, len, r, sym, c)
    && Current(t, root, lens, len, Code(lens, c), drop, curr, next, pl)
    && AllGood(t, root, kind, lens, len, r, pl, next)
    && (len > root ==> InSub(lens, root, max, len, sym, Code(lens, c), curr, pl, next, k0, len0))
  }

  /** The next symbol goes into the table that is being filled. */
  lemma StayStep(t: seq<Entry>, root: nat, kind: Kind, lens: seq<nat>, max: nat, len: nat, r: nat, sym: nat,
                 c: nat, drop: nat, curr: nat, next: nat, pl: int, k0: nat, len0: nat, len1: nat, r1: nat, c1: nat)
    requires ValidLens(lens) && NotOver(lens) && |lens| <= MaxSymbols(kind)
    requires CountAt(lens, max, len, r, sym, c) && CountAt(lens, max, len1, r1, sym + 1, c1) && len <= len1
    requires r1 == (if r + 1 < Count(lens, len) then r + 1 else 0) && (len1 == len <==> r + 1 < Count(lens, len))
    requires Code(lens, c1) == Shl(Code(lens, c) + 1, len1 - len)
    requires Current(t, root, lens, len, Code(lens, c), drop, curr, next, pl)
    requires AllGood(t, root, kind, lens, len, r + 1, pl, next)
    requires len > root ==> InSub(lens, root, max, len, sym, Code(lens, c), curr, pl, next, k0, len0)
    requires len1 > root ==> len > root && Prefix(lens, c1, root) == pl
    ensures Filling(t, root, kind, lens, max, len1, r1, sym + 1, c1, drop, curr, next, pl, k0, len0)
  {
    if len1 > root {
      FitsSub(lens, root, max, curr, pl, len0, c1);
    }
    AllGoodAdvances(t, root, kind, lens, max, len, r, sym, c, pl, next, len1, r1, c1);
  }

  /** No symbol lies between two neighbours of the sorted order. */
  lemma AllGoodAdvances(t: seq<Entry>, root: nat, kind: Kind, lens: seq<nat>, max: nat, len: nat, r: nat, sym: nat,
                        c: nat, pl: int, next: nat, len1: nat, r1: nat, c1: nat)
    requires |lens| <= MaxSymbols(kind)
    requires CountAt(lens, max, len, r, sym, c) && CountAt(lens, max, len1, r1, sym + 1, c1)
    requires AllGood(t, root, kind, lens, len, r + 1, pl, next)
    ensures AllGood(t, root, kind, lens, len1, r1, pl, next)
  {
    forall s: nat | Done(lens, s, len1, r1)
      ensures Done(lens, s, len, r + 1)
    {
      PlaceBounds(lens, s);
      if lens[s] < len1 {
        BelowMonotone(lens, lens[s] + 1, len1);
      }
      assert Place(lens, s) <= sym;
      if lens[s] > len {
        BelowMonotone(lens, len + 1, lens[s]);
        RankBelow(lens, c);
      }
    }
  }

  /** The next symbol opens a sub-table of its own. */
  lemma OpenStep(t: seq<Entry>, root: nat, kind: Kind, lens: seq<nat>, max: nat, len: nat, r: nat, sym: nat,
                 c: nat, drop: nat, curr: nat, next: nat, pl: int, k0: nat, len0: nat, len1: nat, r1: nat, c1: nat)
    requires ValidLens(lens) && NotOver(lens) && |lens| <= MaxSymbols(kind)
    requires CountAt(lens, max, len, r, sym, c) && CountAt(lens, max, len1, r1, sym + 1, c1) && len <= len1
    requires len1 == len <==> r + 1 < Count(lens, len)
    requires Code(lens, c1) == Shl(Code(lens, c) + 1, len1 - len)
    requires Current(t, root, lens, len, Code(lens, c), drop, curr, next, pl)
    requires len > root ==> InSub(lens, root, max, len, sym, Code(lens, c), curr, pl, next, k0, len0)
    requires len1 > root && (len > root ==> Prefix(lens, c1, root) != pl)
    ensures Prefix(lens, c1, root) > pl
    ensures Code(lens, c1) == Shl(Prefix(lens, c1, root), len1 - root)
    ensures Within(root, next + Pow2(curr), sym + 1, len1)
  {
    hide Shl, ValidLens, InSub, Rev, Shr, Below;
    if len <= root {
      OpensFirst(lens, root, c, c1);
      ShlOne(MAXBITS - root);
      ShlLe(0, len1 - root - 1, MAXBITS - root);
    } else {
      OpensNext(lens, root, c, c1);
      SpaceStep(lens, root, max, len, sym, c, curr, pl, next, k0, len0, len1);
    }
  }

  // ---------- the whole table ----------

  /** No length exceeds n. */
  ghost predicate NoLonger(lens: seq<nat>, n: nat)
  {
    forall s :: 0 <= s < |lens| ==> lens[s] <= n
  }

  method Bounds(ghost lens: seq<nat>, count: array<nat>) returns (min: nat, max: nat)
    requires ValidLens(lens) && Counts(count[..], lens)
    ensures max == 0 <==> NoCodes(lens)
    ensures max > 0 ==> 1 <= min <= max <= MAXBITS && Count(lens, min) > 0 && Count(lens, max) > 0
    ensures max > 0 ==> forall l :: 1 <= l < min || max < l <= MAXBITS ==> Count(lens, l) == 0
  {
    max := MAXBITS;
    while max >= 1 && count[max] == 0
      invariant max <= MAXBITS && forall l :: max < l <= MAXBITS ==> Count(lens, l) == 0
    {
      assert count[..][max] == Count(lens, max);
      max := max - 1;
    }
    min := 1;
    if max == 0 {
      forall i | 0 <= i < |lens|
        ensures lens[i] == 0
      {
        CountPositive(lens, i);
      }
    } else {
      assert count[..][max] == Count(lens, max);
      var s := SymbolOfRank(lens, max, 0);
      while count[min] == 0
        decreases max - min
        invariant 1 <= min <= max && forall l :: 1 <= l < min ==> Count(lens, l) == 0
      {
        assert count[..][min] == Count(lens, min);
        min := min + 1;
      }
      assert count[..][min] == Count(lens, min);
    }
  }

  /** The main loop has the first symbol to enter. */
  lemma Start(t: seq<Entry>, root: nat, kind: Kind, lens: seq<nat>, min: nat, max: nat) returns (c: nat)
    requires ValidLens(lens) && NotOver(lens) && |lens| <= MaxSymbols(kind)
    requires 1 <= min <= root <= max <= MAXBITS && Count(lens, min) > 0 && Count(lens, max) > 0
    requires forall l :: 1 <= l < min || max < l <= MAXBITS ==> Count(lens, l) == 0
    requires Pow2(root) <= |t|
    ensures Filling(t, root, kind, lens, max, min, 0, 0, c, 0, root, 0, -1, 0, 0)
    ensures Reversed(lens, c) == 0
  {
    c := SymbolOfRank(lens, min, 0);
    NoneBelow(lens, 1, min);
    NoneBetween(lens, max + 1, MAXBITS + 1);
    RevZero(min);
    forall s: nat | Done(lens, s, min, 0)
      ensures false
    {
      CountPositive(lens, s);
    }
  }

  lemma {:induction false} NoneBelow(lens: seq<nat>, l: nat, m: nat)
    requires 1 <= l <= m && forall j :: 1 <= j < m ==> Count(lens, j) == 0
    ensures Below(lens, m) == 0 && NextCode(lens, m) == 0
  {
    if m > 1 {
      NoneBelow(lens, 1, m - 1);
    }
  }

  lemma {:induction false} NoneBetween(lens: seq<nat>, l: nat, m: nat)
    requires 1 <= l <= m && forall j :: l <= j < m ==> Count(lens, j) == 0
    ensures Below(lens, l) == Below(lens, m)
  {
    if l < m {
      NoneBetween(lens, l, m - 1);
    }
  }

  /** Room for the largest table that any set of lengths could ask for. */
  function Capacity(lens: seq<nat>): nat
  {
    16 * Pow2(MAXBITS) + |lens|
  }

  /** The table fits in that room. */
  lemma Fits(lens: seq<nat>, root: nat, max: nat, next: nat, curr: nat, k0: nat, len0: nat)
    requires 1 <= root < len0 <= max <= MAXBITS && root + curr <= max && k0 <= |lens|
    requires Within(root, next, k0, len0)
    ensures next + Pow2(curr) <= Capacity(lens)
  {
    hide Pow2, Shl;
    var w := MAXBITS - root;
    Pow2Monotone(root, MAXBITS);
    Pow2Monotone(curr, MAXBITS);
    ShlLe(len0 - root - 1, 14, w);
    ShlGrows(14, w, MAXBITS);
    ShlIsTimes(14, MAXBITS);
  }

  /** With 288 symbols and 9 root bits it stays below the limit the C code checks. */
  lemma EnoughIsEnough(next: nat, max: nat, curr: nat, k0: nat, len0: nat)
    requires 9 < len0 <= max <= MAXBITS && 9 + curr <= max && k0 <= 288 && Within(9, next, k0, len0)
    ensures next + Pow2(curr) < ENOUGH - MAXD
  {
    Pow2Monotone(curr, 6);
    ShlLe(len0 - 9 - 1, 5, 6);
    assert Shl(5, 6) == 320 && Pow2(9) == 512 && Pow2(6) == 64;
  }

  lemma RootIsEnough(kind: Kind, root: nat)
    requires kind.LENS? ==> root <= 9
    ensures kind.LENS? ==> Pow2(root) < ENOUGH - MAXD
  {
    if kind.LENS? {
      Pow2Monotone(root, 9);
      assert Pow2(9) == 512;
    }
  }

  lemma {:induction false} ShlGrows(x: nat, m: nat, n: nat)
    requires m <= n
    ensures Shl(x, m) <= Shl(x, n)
  {
    if m < n {
      ShlGrows(x, m, n - 1);
    }
  }

  lemma RootFits(lens: seq<nat>, root: nat)
    requires root <= MAXBITS
    ensures 0 < Pow2(root) <= Capacity(lens)
  {
    Pow2Monotone(root, MAXBITS);
  }

  /** Links the root entry of the code huff to a new sub-table behind the entries used so far. */
  method OpenSubTable(t: array<Entry>, count: array<nat>, root: nat, ghost kind: Kind, ghost lens: seq<nat>, max: nat,
                      len: nat, ghost r: nat, ghost sym: nat, ghost c: nat, huff: nat,
                      ghost pl: int, ghost next0: nat, ghost curr0: nat, next: nat)
    returns (curr: nat, low: nat)
    requires ValidLens(lens) && NotOver(lens) && |lens| <= MaxSymbols(kind) && 1 <= root
    requires kind.LENS? ==> root == 9
    requires CountAt(lens, max, len, r, sym, c) && len > root && huff == Reversed(lens, c)
    requires Remaining(count[..], lens, len, r) && t.Length == Capacity(lens)
    requires Pow2(root) <= next == next0 + Pow2(curr0) <= t.Length && pl < Pow2(root)
    requires AllGood(t[..], root, kind, lens, len, r, pl, next0)
    requires 0 <= pl ==> t[Rev(pl, root)] == Entry(curr0, root, next0)
    requires Prefix(lens, c, root) > pl && Code(lens, c) == Shl(Prefix(lens, c, root), len - root)
    requires Within(root, next, sym, len)
    modifies t
    ensures low == Rev(Prefix(lens, c, root), root) == Low(huff, root) && Prefix(lens, c, root) < Pow2(root)
    ensures Filling(t[..], root, kind, lens, max, len, r, sym, c, root, curr, next, Prefix(lens, c, root), sym, len)
    ensures next + Pow2(curr) <= t.Length
    ensures kind.LENS? ==> next + Pow2(curr) < ENOUGH - MAXD
  {
    hide NotOver, ValidLens, Shl, Shr, Rev, Low, Reversed, Below;
    curr := SubTableBits(count, lens, len, r, root, max, Prefix(lens, c, root));
    PrefixIndex(lens, c, root);
    RankBelow(lens, c);
    PlaceFits(lens, c);
    Fits(lens, root, max, next, curr, sym, len);
    if kind.LENS? {
      EnoughIsEnough(next, max, curr, sym, len);
    }
    low := Low(huff, root);
    LinkStep(t[..], root, kind, lens, c, pl, next0, curr0, next, curr);
    t[low] := Entry(curr, root, next);
    FitsSub(lens, root, max, curr, Prefix(lens, c, root), len, c);
  }

  /** Sorted order and place give the symbol. */
  lemma SymbolAt(work: seq<nat>, lens: seq<nat>, max: nat, len: nat, r: nat, sym: nat, c: nat)
    requires Sorted(work, lens) && CountAt(lens, max, len, r, sym, c)
    ensures sym < |work| && work[sym] == c && r < Count(lens, len)
  {
    RankBelow(lens, c);
    assert Place(lens, c) == sym;
  }

  /** Enters the symbol at place (len, r) at every index it owns in the current table. */
  method EnterSymbol(t: array<Entry>, root: nat, kind: Kind, lens: seq<nat>, ghost max: nat, len: nat, ghost r: nat,
                     ghost sym: nat, c: nat, huff: nat, drop: nat, curr: nat, next: nat, ghost pl: int,
                     ghost k0: nat, ghost len0: nat)
    requires ValidLens(lens) && NotOver(lens) && |lens| <= MaxSymbols(kind)
    requires Filling(t[..], root, kind, lens, max, len, r, sym, c, drop, curr, next, pl, k0, len0)
    requires huff == Reversed(lens, c)
    modifies t
    ensures Current(t[..], root, lens, len, Code(lens, c), drop, curr, next, pl)
    ensures AllGood(t[..], root, kind, lens, len, r + 1, pl, next)
  {
    hide Pow2, Rev, Low, Shr, Shl, Code, Count, Used, NextCode, SymEntry, Good, Slots, Done, InSub;
    CodeFits(lens, c);
    ShrBound(huff, len - drop, drop);
    FillEntries(t, next, curr, Shr(huff, drop), len - drop, SymEntry(kind, c, len - drop));
    FillStep(old(t[..]), t[..], root, kind, lens, c, drop, curr, next, pl);
    CurrentKept(old(t[..]), t[..], root, lens, c, drop, curr, next, pl, SymEntry(kind, c, len - drop));
  }

  lemma CurrentKept(t0: seq<Entry>, t1: seq<Entry>, root: nat, lens: seq<nat>, c: nat,
                    drop: nat, curr: nat, next: nat, pl: int, e: Entry)
    requires HasCode(lens, c)
    requires Current(t0, root, lens, lens[c], Code(lens, c), drop, curr, next, pl)
    requires FilledWith(t0, t1, next, curr, Shr(Reversed(lens, c), drop), lens[c] - drop, e)
    ensures Current(t1, root, lens, lens[c], Code(lens, c), drop, curr, next, pl)
  {
  }

  lemma CurrentFacts(t: seq<Entry>, root: nat, lens: seq<nat>, len: nat, code: nat, drop: nat, curr: nat, next: nat,
                     pl: int)
    requires Current(t, root, lens, len, code, drop, curr, next, pl)
    ensures Pow2(root) <= next + Pow2(curr) <= |t| && pl < Pow2(root)
    ensures 0 <= pl ==> t[Rev(pl, root)] == Entry(curr, root, next)
  {
  }

  /** Everything has been entered. */
  lemma Finish(t: seq<Entry>, root: nat, kind: Kind, lens: seq<nat>, max: nat, len: nat, r: nat, sym: nat,
               c: nat, drop: nat, curr: nat, next: nat, pl: int)
    requires ValidLens(lens) && NotOver(lens) && |lens| <= MaxSymbols(kind)
    requires CountAt(lens, max, len, r, sym, c) && len == max && r + 1 == Count(lens, len)
    requires Current(t, root, lens, len, Code(lens, c), drop, curr, next, pl)
    requires AllGood(t, root, kind, lens, len, r + 1, pl, next)
    ensures Pow2(root) <= next + Pow2(curr) <= |t|
    ensures forall s: nat :: HasCode(lens, s) ==> Good(t[..next + Pow2(curr)], root, kind, lens, s)
  {
    hide Rev, Low, Shr, Shl, Pow2, Code, Count, Used, NextCode, SymEntry, Good, Slots, Below, Current, Placed, Done;
    CurrentFacts(t, root, lens, len, Code(lens, c), drop, curr, next, pl);
    forall s: nat | HasCode(lens, s)
      ensures Good(t[..next + Pow2(curr)], root, kind, lens, s)
    {
      AllDone(lens, max, r, sym, c, s);
      CutStep(t, root, kind, lens, s, pl, next, curr);
    }
  }

  lemma AllDone(lens: seq<nat>, max: nat, r: nat, sym: nat, c: nat, s: nat)
    requires ValidLens(lens) && CountAt(lens, max, max, r, sym, c) && r + 1 == Count(lens, max) && HasCode(lens, s)
    ensures Done(lens, s, max, r + 1)
  {
    PlaceBounds(lens, s);
    if lens[s] > max {
      BelowMonotone(lens, max + 1, lens[s]);
      BelowMonotone(lens, lens[s] + 1, MAXBITS + 1);
    }
    RankBelow(lens, s);
  }

  /** Moves on from symbol c to the next one, opening a sub-table for it if it needs a new one. */
  method MoveOn(t: array<Entry>, count: array<nat>, work: array<nat>, root: nat, kind: Kind, lens: seq<nat>, max: nat,
                len0: nat, ghost r0: nat, sym0: nat, ghost c0: nat, huff: nat, drop0: nat, curr0: nat, next0: nat,
                used0: nat, low0: int, ghost pl0: int, ghost open0: nat, ghost openLen0: nat)
    returns (len: nat, ghost r: nat, sym: nat, ghost c: nat, drop: nat, curr: nat, next: nat,
             used: nat, low: int, ghost pl: int, ghost open: nat, ghost openLen: nat)
    requires ValidLens(lens) && NotOver(lens) && |lens| <= MaxSymbols(kind) && 1 <= root
    requires t.Length == Capacity(lens) && Sorted(work[..], lens)
    requires kind.LENS? ==> root == 9 || (root < 9 && root == max)
    requires CountAt(lens, max, len0, r0, sym0, c0) && Remaining(count[..], lens, len0, r0 + 1)
    requires !(len0 == max && r0 + 1 == Count(lens, len0))
    requires Current(t[..], root, lens, len0, Code(lens, c0), drop0, curr0, next0, pl0)
    requires AllGood(t[..], root, kind, lens, len0, r0 + 1, pl0, next0)
    requires len0 > root ==> InSub(lens, root, max, len0, sym0, Code(lens, c0), curr0, pl0, next0, open0, openLen0)
    requires huff == RevNext(Code(lens, c0), len0) && used0 == next0 + Pow2(curr0) && LowIs(low0, root, pl0)
    modifies t
    ensures sym == sym0 + 1
    ensures Filling(t[..], root, kind, lens, max, len, r, sym, c, drop, curr, next, pl, open, openLen)
    ensures Remaining(count[..], lens, len, r)
    ensures huff == Reversed(lens, c) && used == next + Pow2(curr) <= t.Length && LowIs(low, root, pl)
  {
    hide Pow2, Rev, Low, Shr, Shl, Code, Count, Used, NextCode, SymEntry, Good, Slots, Done, InSub;
    len, drop, curr, next, used, low, pl, open, openLen := len0, drop0, curr0, next0, used0, low0, pl0, open0, openLen0;
    ghost var len1;
    len1, r, c := Advance(lens, max, len0, r0, sym0, c0);
    NextHuff(lens, c0, c);
    sym := sym0 + 1;
    SymbolAt(work[..], lens, max, len1, r, sym, c);
    if count[len] == 0 {
      len := lens[work[sym]];
    }
    assert len == len1;
    if len > root {
      PrefixIndex(lens, c, root);
    }
    if len > root && Low(huff, root) != low {
      OpenStep(t[..], root, kind, lens, max, len0, r0, sym0, c0, drop, curr, next, pl, open, openLen, len, r, c);
      AllGoodAdvances(t[..], root, kind, lens, max, len0, r0, sym0, c0, pl, next, len, r, c);
      drop := root;
      next := next0 + Pow2(curr0);
      curr, low := OpenSubTable(t, count, root, kind, lens, max, len, r, sym, c, huff, pl, next0, curr0, next);
      used := used + Pow2(curr);
      assert !(kind.LENS? && used >= ENOUGH - MAXD);   // the check that would return 1 never fires
      pl, open, openLen := Prefix(lens, c, root), sym, len;
    } else {
      if len > root {
        RevInjective(Prefix(lens, c, root), pl, root);
      }
      StayStep(t[..], root, kind, lens, max, len0, r0, sym0, c0, drop, curr, next, pl, open, openLen, len, r, c);
    }
  }

  /** Enters the codes in sorted order, opening a sub-table whenever the first root bits change. */
  method FillTable(kind: Kind, lens: seq<nat>, count: array<nat>, work: array<nat>, min: nat, max: nat, root: nat)
    returns (t: array<Entry>, used: nat, huff: nat, len: nat, drop: nat, next: nat, ghost c: nat)
    requires ValidLens(lens) && NotOver(lens) && |lens| <= MaxSymbols(kind)
    requires Counts(count[..], lens) && Sorted(work[..], lens) && count != work
    requires 1 <= min <= root <= max <= MAXBITS && Count(lens, min) > 0 && Count(lens, max) > 0
    requires forall l :: 1 <= l < min || max < l <= MAXBITS ==> Count(lens, l) == 0
    requires kind.LENS? ==> root == 9 || (root < 9 && root == max)
    modifies count
    ensures fresh(t) && Pow2(root) <= used <= t.Length
    ensures forall s: nat :: HasCode(lens, s) ==> Good(t[..used], root, kind, lens, s)
    ensures len == max && HasCode(lens, c) && lens[c] == len && huff == RevNext(Code(lens, c), len)
    ensures Used(lens, MAXBITS) == Shl(Code(lens, c) + 1, MAXBITS - len)
    ensures drop <= len && (max == root ==> drop == 0 && next == 0)
  {
    hide Pow2, Rev, Low, Shr, Shl, Code, Count, Used, NextCode, SymEntry, Good, Slots, Done, InSub, Capacity, Below;
    RootFits(lens, root);
    t := new Entry[Capacity(lens)];
    used := Pow2(root);
    RootIsEnough(kind, root);
    assert !(kind.LENS? && used >= ENOUGH - MAXD);   // the first check that would return 1 does not fire either
    huff := 0;
    len := min;
    next := 0;
    drop := 0;
    var low: int := -1;
    var sym := 0;
    var curr := root;
    ghost var r: nat := 0;
    ghost var pl: int := -1;
    ghost var k0: nat, len0: nat := 0, 0;
    c := Start(t[..], root, kind, lens, min, max);
    assert Remaining(count[..], lens, len, 0) && LowIs(low, root, pl);
    while true
      invariant t.Length == Capacity(lens) && fresh(t)
      invariant Sorted(work[..], lens)
      invariant Filling(t[..], root, kind, lens, max, len, r, sym, c, drop, curr, next, pl, k0, len0)
      invariant Remaining(count[..], lens, len, r)
      invariant huff == Reversed(lens, c) && used == next + Pow2(curr) <= t.Length
      invariant LowIs(low, root, pl)
      decreases |lens| - sym
    {
      SymbolAt(work[..], lens, max, len, r, sym, c);
      PlaceFits(lens, c);
      CodeFits(lens, c);
      // the entry goes to every index that ends in these bits
      EnterSymbol(t, root, kind, lens, max, len, r, sym, work[sym], huff, drop, curr, next, pl, k0, len0);
      huff := BackIncrement(huff, len, Code(lens, c));
      count[len] := count[len] - 1;
      if count[len] == 0 && len == max {
        Finish(t[..], root, kind, lens, max, len, r, sym, c, drop, curr, next, pl);
        AtEnd(lens, max, len, r, sym, c);
        break;
      }
      len, r, sym, c, drop, curr, next, used, low, pl, k0, len0 :=
        MoveOn(t, count, work, root, kind, lens, max, len, r, sym, c, huff, drop, curr, next, used, low, pl, k0, len0);
    }
  }

  // ---------- inflate_table ----------

  /** A complete code whose codes all have at least m bits has at least 2^m symbols. */
  lemma ManyCodes(lens: seq<nat>, m: nat)
    requires Complete(lens) && 1 <= m <= MAXBITS && forall l :: 1 <= l < m ==> Count(lens, l) == 0
    ensures Pow2(m) <= |lens|
  {
    UsedAtMost(lens, m, MAXBITS);
    BelowAtMost(lens, MAXBITS + 1);
    ShlPow2(m, MAXBITS - m);
    ShlLe(Below(lens, MAXBITS + 1), |lens|, MAXBITS - m);
    ShlCancel(Pow2(m), |lens|, MAXBITS - m);
  }

  lemma {:induction false} UsedAtMost(lens: seq<nat>, m: nat, l: nat)
    requires 1 <= m <= l && forall j :: 1 <= j < m ==> Count(lens, j) == 0
    ensures Used(lens, l) <= Shl(Below(lens, l + 1), l - m)
  {
    if l == m {
      NoneBelow(lens, 1, m);
    } else {
      UsedAtMost(lens, m, l - 1);
      ShlAdd(Below(lens, l), Count(lens, l), l - m);
    }
  }

  lemma NoCodesUsed(lens: seq<nat>)
    requires NoCodes(lens)
    ensures Used(lens, MAXBITS) == 0
  {
    forall l | 1 <= l <= MAXBITS ensures Count(lens, l) == 0 {
      CountZero(lens, l);
    }
    NoneBelow(lens, 1, MAXBITS);
  }

  lemma EmptyTable(kind: Kind, lens: seq<nat>)
    requires NoCodes(lens) && |lens| <= MaxSymbols(kind)
    ensures IsTable([INVALID, INVALID], 1, kind, lens)
  {
    NoCodesUsed(lens);
    assert Pow2(1) == 2;
  }

  /** When the longest length is 1, all lengths are. */
  lemma AllOnes(lens: seq<nat>)
    requires ValidLens(lens) && forall l :: 1 < l <= MAXBITS ==> Count(lens, l) == 0
    ensures forall s: nat :: HasCode(lens, s) ==> lens[s] == 1
  {
    forall s: nat | HasCode(lens, s)
      ensures lens[s] == 1
    {
      CountPositive(lens, s);
    }
  }

  /** The set is incomplete, so it is a lone one-bit code: its symbol is at index 0, and index 1 is free. */
  lemma LoneCode(lens: seq<nat>, c: nat)
    requires ValidLens(lens) && NotOver(lens) && !Complete(lens) && HasCode(lens, c) && lens[c] == 1
    requires Used(lens, MAXBITS) == Shl(Code(lens, c) + 1, MAXBITS - 1)
    ensures Code(lens, c) == 0 && Reversed(lens, c) == 0
    ensures RevNext(Code(lens, c), 1) == 1
  {
    CodeFits(lens, c);
    ShlPow2(1, MAXBITS - 1);
    assert Pow2(1) == 2;
    RevZero(1);
    assert Rev(1, 1) == 1 by { assert Rev(0, 0) == 0 && Pow2(0) == 1; }
  }

  lemma CompleteEnds(lens: seq<nat>, c: nat)
    requires Complete(lens) && HasCode(lens, c) && lens[c] <= MAXBITS
    requires Used(lens, MAXBITS) == Shl(Code(lens, c) + 1, MAXBITS - lens[c])
    ensures RevNext(Code(lens, c), lens[c]) == 0
  {
    hide Shl, Code, Rev, Used;
    ShlPow2(lens[c], MAXBITS - lens[c]);
    ShlCancel(Code(lens, c) + 1, Pow2(lens[c]), MAXBITS - lens[c]);
    ShlCancel(Pow2(lens[c]), Code(lens, c) + 1, MAXBITS - lens[c]);
  }

  lemma OnlyOne(lens: seq<nat>, c: nat, s: nat)
    requires ValidLens(lens) && NotOver(lens) && HasCode(lens, c) && lens[c] == 1 && Code(lens, c) == 0
    requires Used(lens, MAXBITS) == Shl(1, MAXBITS - 1)
    requires HasCode(lens, s) && lens[s] == 1
    ensures s == c
  {
    NextCodeAfter(lens, 1, MAXBITS);
    ShlCancel(Used(lens, 1), 1, MAXBITS - 1);
    CodeFits(lens, s);
    Alone(lens, s, c);
  }

  /** The index 1 that an incomplete set leaves over gets the invalid code marker. */
  lemma RestDone(t: seq<Entry>, kind: Kind, lens: seq<nat>, c: nat)
    requires ValidLens(lens) && NotOver(lens) && |lens| <= MaxSymbols(kind) && 2 <= |t|
    requires HasCode(lens, c) && lens[c] == 1 && Code(lens, c) == 0 && Reversed(lens, c) == 0
    requires Used(lens, MAXBITS) == Shl(1, MAXBITS - 1)
    requires forall s: nat :: HasCode(lens, s) ==> lens[s] == 1 && Good(t, 1, kind, lens, s)
    ensures forall s: nat :: HasCode(lens, s) ==> Good(t[1 := INVALID], 1, kind, lens, s)
    ensures forall i | 0 <= i < 2 :: NoneStarts(lens, i) ==> t[1 := INVALID][i] == INVALID
  {
    assert Pow2(1) == 2;
    assert Low(0, 1) == 0 && Low(1, 1) == 1 by { assert Low(0, 0) == 0; }
    assert StartsWith(lens, c, 0);
    forall s: nat | HasCode(lens, s)
      ensures Good(t[1 := INVALID], 1, kind, lens, s)
    {
      OnlyOne(lens, c, s);
    }
  }

  /**
   Fills the rest of the table of an incomplete code with the invalid code marker. Only a lone one-bit
   code gets here with huff != 0.
   */
  method FillRest(t: array<Entry>, kind: Kind, lens: seq<nat>, root: nat, used: nat, huff0: nat, len: nat,
                  drop: nat, next: nat, ghost c: nat)
    requires ValidLens(lens) && NotOver(lens) && |lens| <= MaxSymbols(kind)
    requires HasCode(lens, c) && lens[c] == len && huff0 == RevNext(Code(lens, c), len)
    requires Used(lens, MAXBITS) == Shl(Code(lens, c) + 1, MAXBITS - len)
    requires drop <= len && 1 <= root <= MAXBITS && Pow2(root) <= used <= t.Length
    requires forall s: nat :: HasCode(lens, s) ==> Good(t[..used], root, kind, lens, s)
    requires !Complete(lens) ==>
               && len == 1 == root && drop == 0 && next == 0
               && forall s: nat :: HasCode(lens, s) ==> lens[s] == 1
    modifies t
    ensures IsTable(t[..used], root, kind, lens)
  {
    var huff := huff0;
    assert Rev(1, 1) == 1 && RevNext(1, 1) == 0 by {
      assert Rev(0, 0) == 0 && Pow2(0) == 1 && Pow2(1) == 2;
    }
    if Complete(lens) {
      CompleteEnds(lens, c);
    } else {
      LoneCode(lens, c);
      assert Pow2(1) == 2;
      RestDone(t[..used], kind, lens, c);
    }
    ghost var filled := t[..used][1 := INVALID];
    assert t[..used] == old(t[..used]);
    var entry := Entry(64, len - drop, 0);
    ghost var before := true;
    while huff != 0
      invariant Complete(lens) ==> huff == 0 && t[..used] == old(t[..used])
      invariant !Complete(lens) ==> entry == INVALID
      invariant !Complete(lens) ==>
               if before then huff == 1 && t[..used] == old(t[..used]) else huff == 0 && t[..used] == filled
      decreases before
    {
      assert drop == 0;   // so the branch that drops back from a sub-table is never taken
      t[next + Shr(huff, drop)] := entry;
      assert !Complete(lens) ==> Shr(huff, 0) == 1 && t[..used] == filled;
      huff := BackIncrement(huff, len, 1);
      before := false;
    }
  }

  /** inflate_table: 0 and a table that is right for every bit string, or -1 for a set of lengths that is no code. */
  method InflateTable(kind: Kind, lens: seq<nat>, bits: nat) returns (ret: int, table: seq<Entry>, root: nat)
    requires ValidLens(lens) && |lens| <= MaxSymbols(kind)
    requires kind.LENS? ==> bits == 9
    ensures ret == 0 || ret == -1
    ensures ret == 0 <==> Acceptable(kind, lens)
    ensures ret == 0 ==> IsTable(table, root, kind, lens)
    ensures ret == 0 && NoLonger(lens, bits) ==> NoLonger(lens, root)
  {
    hide Pow2, Shl, NextCode, Count, Below, Code, Good, NoLonger;
    var count := CountLengths(lens);
    var min, max := Bounds(lens, count);
    root := bits;
    if root > max {
      root := max;
    }
    if max == 0 {
      EmptyTable(kind, lens);
      NoneLonger(lens);
      return 0, [INVALID, INVALID], 1;
    }
    RootCovers(lens, bits, max);
    if root < min {
      root := min;
    }
    table := [];
    var left := CodesLeft(lens, count);
    if left < 0 {
      return -1, table, root;
    }
    if max == 1 {
      AllOnes(lens);
    } else {
      var s := SymbolOfRank(lens, max, 0);
    }
    if left > 0 && (kind.CODES? || max != 1) {
      return -1, table, root;
    }
    if kind.LENS? && Complete(lens) {
      RootIs9(lens, min);
    }
    var work := SortSymbols(lens, count);
    var t, used, huff, len, drop, next;
    ghost var c;
    t, used, huff, len, drop, next, c := FillTable(kind, lens, count, work, min, max, root);
    FillRest(t, kind, lens, root, used, huff, len, drop, next, c);
    ret, table := 0, t[..used];
  }

  lemma NoneLonger(lens: seq<nat>)
    requires NoCodes(lens)
    ensures NoLonger(lens, 1)
  {
  }

  lemma RootCovers(lens: seq<nat>, bits: nat, max: nat)
    requires ValidLens(lens) && forall l :: max < l <= MAXBITS ==> Count(lens, l) == 0
    ensures NoLonger(lens, bits) ==> forall root: nat :: root >= bits || root >= max ==> NoLonger(lens, root)
  {
    forall s: nat | s < |lens|
      ensures lens[s] <= max
    {
      CountPositive(lens, s);
    }
  }

  lemma RootIs9(lens: seq<nat>, min: nat)
    requires Complete(lens) && |lens| <= 288 && 1 <= min <= MAXBITS
    requires forall l :: 1 <= l < min ==> Count(lens, l) == 0
    ensures min <= 9
  {
    ManyCodes(lens, min);
    if min > 9 {
      assert Pow2(10) == 1024;
      Pow2Monotone(10, min);
    }
  }
}
