/**
 Decoding tables (inftrees.c): what a table must contain for a set of code lengths, and why
 entering one more symbol, or linking one more sub-table, keeps the entries made so far.
 */
module InfTreesSpec {
  import opened Shift
  import opened Bits
  import opened Canonical

  datatype Kind = CODES | LENS | DISTS

  /** op: 0 literal, 1..15 link to a sub-table of op index bits, 16 + extra bits, 96 end of block, 64 invalid. */
  datatype Entry = Entry(op: nat, bits: nat, val: nat)

  const LBASE: seq<nat> := [
    3, 4, 5, 6, 7, 8, 9, 10, 11, 13, 15, 17, 19, 23, 27, 31,
    35, 43, 51, 59, 67, 83, 99, 115, 131, 163, 195, 227, 258, 0, 0]
  const LEXT: seq<nat> := [
    16, 16, 16, 16, 16, 16, 16, 16, 17, 17, 17, 17, 18, 18, 18, 18,
    19, 19, 19, 19, 20, 20, 20, 20, 21, 21, 21, 21, 16, 201, 196]
  const DBASE: seq<nat> := [
    1, 2, 3, 4, 5, 7, 9, 13, 17, 25, 33, 49, 65, 97, 129, 193,
    257, 385, 513, 769, 1025, 1537, 2049, 3073, 4097, 6145,
    8193, 12289, 16385, 24577, 0, 0]
  const DEXT: seq<nat> := [
    16, 16, 16, 16, 17, 17, 18, 18, 19, 19, 20, 20, 21, 21, 22, 22,
    23, 23, 24, 24, 25, 25, 26, 26, 27, 27,
    28, 28, 29, 29, 64, 64]

  /** The most symbols a code of each kind has. */
  function MaxSymbols(kind: Kind): nat
  {
    match kind
    case CODES => 19
    case LENS => 288
    case DISTS => 32
  }

  /** The entry for a symbol, n bits of whose code index the table it is in. */
  function SymEntry(kind: Kind, sym: nat, n: nat): Entry
    requires sym < MaxSymbols(kind)
  {
    match kind
    case CODES => Entry(0, n, sym)
    case LENS =>
      if sym < 256 then Entry(0, n, sym)
      else if sym > 256 then Entry(LEXT[sym - 257], n, LBASE[sym - 257])
      else Entry(96, n, 0)
    case DISTS => Entry(DEXT[sym], n, DBASE[sym])
  }

  const INVALID := Entry(64, 1, 0)

  /** The sets of lengths that inflate accepts: complete, or a lone one-bit code, or no code at all. */
  ghost predicate Acceptable(kind: Kind, lens: seq<nat>)
  {
    || NoCodes(lens)
    || (NotOver(lens) && (Complete(lens) || (!kind.CODES? && forall s: nat :: HasCode(lens, s) ==> lens[s] == 1)))
  }

  // ---------- order of the symbols ----------

  /** The place of s among all symbols sorted by length and then by value. */
  function Place(lens: seq<nat>, s: nat): nat
    requires s < |lens|
  {
    Below(lens, lens[s]) + Count(lens[..s], lens[s])
  }

  lemma PlaceBounds(lens: seq<nat>, s: nat)
    requires HasCode(lens, s)
    ensures Place(lens, s) < Below(lens, lens[s] + 1)
  {
    CountPrefix(lens, s, s + 1, lens[s]);
    CountPrefix(lens, s + 1, |lens|, lens[s]);
  }

  lemma PlaceInjective(lens: seq<nat>, s: nat, t: nat)
    requires HasCode(lens, s) && HasCode(lens, t) && Place(lens, s) == Place(lens, t)
    ensures s == t
  {
    PlaceBounds(lens, s);
    PlaceBounds(lens, t);
    if lens[s] < lens[t] {
      BelowMonotone(lens, lens[s] + 1, lens[t]);
    } else if lens[t] < lens[s] {
      BelowMonotone(lens, lens[t] + 1, lens[s]);
    } else if s < t {
      CountPrefix(lens, s, t, lens[s]);
    } else if t < s {
      CountPrefix(lens, t, s, lens[s]);
    }
  }

  /** The length of the symbol at place k, and its rank among the symbols of that length. */
  lemma {:induction false} Locate(lens: seq<nat>, k: nat, m: nat) returns (l: nat, r: nat)
    requires k < Below(lens, m)
    ensures 1 <= l < m && r < Count(lens, l) && k == Below(lens, l) + r
  {
    if k >= Below(lens, m - 1) {
      l, r := m - 1, k - Below(lens, m - 1);
    } else {
      l, r := Locate(lens, k, m - 1);
    }
  }

  /** Between two lengths with no code in between, the next code only gains zero bits. */
  lemma {:induction false} NextCodeSkips(lens: seq<nat>, l: nat, m: nat)
    requires 1 <= l < m && Below(lens, m) == Below(lens, l + 1)
    ensures NextCode(lens, m) == Shl(Used(lens, l), m - l)
  {
    if m == l + 1 {
      assert Shl(Used(lens, l), 1) == 2 * Shl(Used(lens, l), 0);
    } else {
      BelowMonotone(lens, l + 1, m - 1);
      NextCodeSkips(lens, l, m - 1);
    }
  }

  // ---------- good tables ----------

  /** t[base..] has e at every index below 2^width whose low n bits are start. */
  ghost predicate Slots(t: seq<Entry>, base: nat, width: nat, start: nat, n: nat, e: Entry)
  {
    && base + Pow2(width) <= |t|
    && forall j :: 0 <= j < Pow2(width) && Low(j, n) == start ==> t[base + j] == e
  }

  /** Every buffer that starts with the code of s is led to the entry of s. */
  ghost predicate Good(t: seq<Entry>, root: nat, kind: Kind, lens: seq<nat>, s: nat)
    requires s < |lens| && s < MaxSymbols(kind)
  {
    Pow2(root) <= |t| &&
    if lens[s] <= root then
      Slots(t, 0, root, Reversed(lens, s), lens[s], SymEntry(kind, s, lens[s]))
    else
      GoodLong(t, root, Reversed(lens, s), lens[s] - root, SymEntry(kind, s, lens[s] - root))
  }

  ghost predicate GoodLong(t: seq<Entry>, root: nat, r: nat, n: nat, e: Entry)
    requires Pow2(root) <= |t|
  {
    var link := t[Low(r, root)];
    && 1 <= link.op <= 15 && link.bits == root && n <= link.op && Pow2(root) <= link.val
    && Slots(t, link.val, link.op, Shr(r, root), n, e)
  }

  /** No code starts the buffer h. */
  ghost predicate NoneStarts(lens: seq<nat>, h: nat)
  {
    forall s: nat :: HasCode(lens, s) ==> !StartsWith(lens, s, h)
  }

  /**
   The finished table: good for every symbol, and with the invalid code marker wherever a set of
   lengths that inflate accepts although it is incomplete leaves a slot without a code.
   */
  ghost predicate IsTable(t: seq<Entry>, root: nat, kind: Kind, lens: seq<nat>)
    requires |lens| <= MaxSymbols(kind)
  {
    && 1 <= root <= MAXBITS && Pow2(root) <= |t|
    && (forall s: nat :: HasCode(lens, s) ==> Good(t, root, kind, lens, s))
    && (!Complete(lens) ==>
          && root == 1
          && (forall s: nat :: HasCode(lens, s) ==> lens[s] == 1)
          && forall i | 0 <= i < 2 :: NoneStarts(lens, i) ==> t[i] == INVALID)
  }

  /** s comes before the symbol of length len and rank r. */
  ghost predicate Done(lens: seq<nat>, s: nat, len: nat, r: nat)
  {
    HasCode(lens, s) && (lens[s] < len || (lens[s] == len && Count(lens[..s], len) < r))
  }

  /** The first root bits of the code of s, as a number. */
  function Prefix(lens: seq<nat>, s: nat, root: nat): nat
    requires s < |lens| && root <= lens[s]
  {
    Shr(Code(lens, s), lens[s] - root)
  }

  /** The sub-table of s is the current one, of prefix pl, or lies entirely below next. */
  ghost predicate Placed(t: seq<Entry>, root: nat, lens: seq<nat>, s: nat, pl: int, next: nat)
    requires s < |lens| && Pow2(root) <= |t|
  {
    lens[s] > root ==>
      && Prefix(lens, s, root) <= pl
      && (var link := t[Low(Reversed(lens, s), root)];
          Prefix(lens, s, root) == pl || link.val + Pow2(link.op) <= next)
  }

  ghost predicate AllGood(t: seq<Entry>, root: nat, kind: Kind, lens: seq<nat>, len: nat, r: nat, pl: int, next: nat)
    requires |lens| <= MaxSymbols(kind)
  {
    Pow2(root) <= |t| &&
    forall s: nat :: Done(lens, s, len, r) ==> Good(t, root, kind, lens, s) && Placed(t, root, lens, s, pl, next)
  }

  /** The table that is being filled: the root table, or the sub-table of prefix pl. */
  ghost predicate Current(t: seq<Entry>, root: nat, lens: seq<nat>, len: nat, code: nat,
                          drop: nat, curr: nat, next: nat, pl: int)
  {
    && Pow2(root) <= |t| && next + Pow2(curr) <= |t|
    && (len <= root ==> drop == 0 && next == 0 && curr == root && pl == -1)
    && (len > root ==>
          && drop == root && pl == Shr(code, len - root) && 1 <= curr <= 15 && len <= root + curr
          && pl < Pow2(root) <= next && t[Rev(pl, root)] == Entry(curr, root, next))
  }

  /** t1 is t0 with e at every index of the current table whose low n bits are start. */
  ghost predicate FilledWith(t0: seq<Entry>, t1: seq<Entry>, next: nat, curr: nat, start: nat, n: nat, e: Entry)
  {
    && |t1| == |t0| && next + Pow2(curr) <= |t0|
    && Slots(t1, next, curr, start, n, e)
    && (forall i :: 0 <= i < Pow2(curr) && Low(i, n) != start ==> t1[next + i] == t0[next + i])
    && (forall k :: 0 <= k < |t0| && !(next <= k < next + Pow2(curr)) ==> t1[k] == t0[k])
  }

  lemma PrefixIndex(lens: seq<nat>, s: nat, root: nat)
    requires ValidLens(lens) && NotOver(lens) && HasCode(lens, s) && root <= lens[s]
    ensures Prefix(lens, s, root) < Pow2(root)
    ensures Low(Reversed(lens, s), root) == Rev(Prefix(lens, s, root), root)
  {
    hide Pow2, Rev, Low, Shr, Code;
    CodeFits(lens, s);
    RevHigh(Code(lens, s), root, lens[s] - root);
  }

  lemma {:induction false} LowOfJoin(j: nat, low: nat, root: nat, m: nat)
    requires low < Pow2(root)
    ensures Low(Shl(j, root) + low, root + m) == Shl(Low(j, m), root) + low
  {
    if root > 0 {
      assert (Shl(j, root) + low) / 2 == Shl(j, root - 1) + low / 2;
      LowOfJoin(j, low / 2, root - 1, m);
    }
  }

  /** An index of a sub-table, put back behind the root index it hangs from, is a bit buffer. */
  lemma SubIndex(r: nat, root: nat, n: nat, j: nat)
    requires Low(j, n) == Shr(r, root)
    ensures Low(Shl(j, root) + Low(r, root), root + n) == r
  {
    LowOfJoin(j, Low(r, root), root, n);
    Split(r, root);
  }

  /** In the root table, the slots of c and those of an earlier symbol are apart. */
  lemma ApartInRoot(lens: seq<nat>, s: nat, c: nat, i: nat)
    requires ValidLens(lens) && NotOver(lens) && HasCode(lens, c) && HasCode(lens, s) && s != c && lens[s] <= lens[c]
    requires Low(i, lens[s]) == Reversed(lens, s)
    ensures Low(i, lens[c]) != Reversed(lens, c)
  {
    if Low(i, lens[c]) == Reversed(lens, c) {
      AloneReversed(lens, s, c, i);
    }
  }

  /** So they are in a sub-table. */
  lemma ApartInSub(lens: seq<nat>, s: nat, c: nat, root: nat, j: nat)
    requires ValidLens(lens) && NotOver(lens) && HasCode(lens, c) && HasCode(lens, s) && s != c
    requires root < lens[s] <= lens[c] && Prefix(lens, s, root) == Prefix(lens, c, root)
    requires Low(j, lens[s] - root) == Shr(Reversed(lens, s), root)
    ensures Low(j, lens[c] - root) != Shr(Reversed(lens, c), root)
  {
    hide Code, Rev, Shr, Shl, NotOver;
    PrefixIndex(lens, s, root);
    PrefixIndex(lens, c, root);
    SubIndex(Reversed(lens, s), root, lens[s] - root, j);
    if Low(j, lens[c] - root) == Shr(Reversed(lens, c), root) {
      SubIndex(Reversed(lens, c), root, lens[c] - root, j);
      AloneReversed(lens, s, c, Shl(j, root) + Low(Reversed(lens, s), root));
    }
  }

  lemma SlotsKept(t0: seq<Entry>, t1: seq<Entry>, next: nat, curr: nat, start: nat, n: nat, e: Entry,
                  base: nat, width: nat, start0: nat, n0: nat, e0: Entry)
    requires FilledWith(t0, t1, next, curr, start, n, e) && Slots(t0, base, width, start0, n0, e0)
    requires base + Pow2(width) <= next
             || (base == next && width == curr
                 && forall j :: 0 <= j < Pow2(curr) && Low(j, n0) == start0 ==> Low(j, n) != start)
    ensures Slots(t1, base, width, start0, n0, e0)
  {
    forall j | 0 <= j < Pow2(width) && Low(j, n0) == start0
      ensures t1[base + j] == e0
    {
      assert t0[base + j] == e0;
      if base + Pow2(width) > next {
        assert Low(j, n) != start;
      }
    }
  }

  /** Filling in the slots of symbol c leaves an earlier symbol good. */
  lemma FillKeepsShort(t0: seq<Entry>, t1: seq<Entry>, root: nat, kind: Kind, lens: seq<nat>, c: nat,
                       drop: nat, curr: nat, next: nat, pl: int, s: nat)
    requires ValidLens(lens) && NotOver(lens) && |lens| <= MaxSymbols(kind) && HasCode(lens, c)
    requires Current(t0, root, lens, lens[c], Code(lens, c), drop, curr, next, pl)
    requires FilledWith(t0, t1, next, curr, Shr(Reversed(lens, c), drop), lens[c] - drop,
             SymEntry(kind, c, lens[c] - drop))
    requires HasCode(lens, s) && s != c && lens[s] <= lens[c] && lens[s] <= root
    requires Good(t0, root, kind, lens, s)
    ensures Good(t1, root, kind, lens, s)
  {
    forall i | 0 <= i < Pow2(root) && Low(i, lens[s]) == Reversed(lens, s)
      ensures t1[0 + i] == SymEntry(kind, s, lens[s])
    {
      assert t0[0 + i] == SymEntry(kind, s, lens[s]);
      if lens[c] <= root {
        ApartInRoot(lens, s, c, i);
        assert t1[next + i] == t0[next + i];
      }
    }
  }

  lemma FillKeepsLong(t0: seq<Entry>, t1: seq<Entry>, root: nat, kind: Kind, lens: seq<nat>, c: nat,
                      drop: nat, curr: nat, next: nat, pl: int, s: nat)
    requires ValidLens(lens) && NotOver(lens) && |lens| <= MaxSymbols(kind) && HasCode(lens, c)
    requires Current(t0, root, lens, lens[c], Code(lens, c), drop, curr, next, pl)
    requires FilledWith(t0, t1, next, curr, Shr(Reversed(lens, c), drop), lens[c] - drop,
             SymEntry(kind, c, lens[c] - drop))
    requires HasCode(lens, s) && s != c && root < lens[s] <= lens[c]
    requires Good(t0, root, kind, lens, s) && Placed(t0, root, lens, s, pl, next)
    ensures Good(t1, root, kind, lens, s) && Placed(t1, root, lens, s, pl, next)
  {
    hide Code, SymEntry, Rev, Low, Shr, Pow2, NextCode, Count, Used, NotOver, ValidLens;
    PrefixIndex(lens, s, root);
    var r, n := Reversed(lens, s), lens[s] - root;
    var link := t0[Low(r, root)];
    if Prefix(lens, s, root) == pl {
      forall j | 0 <= j < Pow2(curr) && Low(j, n) == Shr(r, root)
        ensures Low(j, lens[c] - drop) != Shr(Reversed(lens, c), drop)
      {
        ApartInSub(lens, s, c, root, j);
      }
    }
    SlotsKept(t0, t1, next, curr, Shr(Reversed(lens, c), drop), lens[c] - drop, SymEntry(kind, c, lens[c] - drop),
              link.val, link.op, Shr(r, root), n, SymEntry(kind, s, n));
  }

  /** Entering symbol c makes the table good for c as well. */
  lemma FillAdds(t0: seq<Entry>, t1: seq<Entry>, root: nat, kind: Kind, lens: seq<nat>, c: nat,
                 drop: nat, curr: nat, next: nat, pl: int)
    requires ValidLens(lens) && NotOver(lens) && |lens| <= MaxSymbols(kind) && HasCode(lens, c)
    requires Current(t0, root, lens, lens[c], Code(lens, c), drop, curr, next, pl)
    requires FilledWith(t0, t1, next, curr, Shr(Reversed(lens, c), drop), lens[c] - drop,
             SymEntry(kind, c, lens[c] - drop))
    ensures Good(t1, root, kind, lens, c) && Placed(t1, root, lens, c, pl, next)
  {
    if lens[c] <= root {
      assert Shr(Reversed(lens, c), 0) == Reversed(lens, c);
    } else {
      PrefixIndex(lens, c, root);
    }
  }

  lemma FillStep(t0: seq<Entry>, t1: seq<Entry>, root: nat, kind: Kind, lens: seq<nat>, c: nat,
                 drop: nat, curr: nat, next: nat, pl: int)
    requires ValidLens(lens) && NotOver(lens) && |lens| <= MaxSymbols(kind) && HasCode(lens, c)
    requires Current(t0, root, lens, lens[c], Code(lens, c), drop, curr, next, pl)
    requires FilledWith(t0, t1, next, curr, Shr(Reversed(lens, c), drop), lens[c] - drop,
             SymEntry(kind, c, lens[c] - drop))
    requires AllGood(t0, root, kind, lens, lens[c], Count(lens[..c], lens[c]), pl, next)
    ensures AllGood(t1, root, kind, lens, lens[c], Count(lens[..c], lens[c]) + 1, pl, next)
  {
    var r := Count(lens[..c], lens[c]);
    forall s: nat | Done(lens, s, lens[c], r + 1)
      ensures Good(t1, root, kind, lens, s) && Placed(t1, root, lens, s, pl, next)
    {
      if s == c {
        FillAdds(t0, t1, root, kind, lens, c, drop, curr, next, pl);
      } else {
        if lens[s] == lens[c] && Count(lens[..s], lens[c]) == r {
          PlaceInjective(lens, s, c);
        }
        assert Done(lens, s, lens[c], r);
        if lens[s] <= root {
          FillKeepsShort(t0, t1, root, kind, lens, c, drop, curr, next, pl, s);
        } else {
          FillKeepsLong(t0, t1, root, kind, lens, c, drop, curr, next, pl, s);
        }
      }
    }
  }

  /** The root index of a longer code is none of the slots of a symbol entered before it. */
  lemma LinkApart(lens: seq<nat>, s: nat, c: nat, root: nat)
    requires ValidLens(lens) && NotOver(lens) && HasCode(lens, s) && HasCode(lens, c) && s != c
    requires lens[s] <= root <= lens[c]
    ensures Low(Low(Reversed(lens, c), root), lens[s]) != Reversed(lens, s)
  {
    LowLow(Reversed(lens, c), lens[s], root);
    Small(Reversed(lens, c), lens[c]);
    if Low(Reversed(lens, c), lens[s]) == Reversed(lens, s) {
      AloneReversed(lens, s, c, Reversed(lens, c));
    }
  }

  /** Writing a root entry that is no slot of s, nor its link, leaves s good. */
  lemma WriteKeeps(t0: seq<Entry>, root: nat, kind: Kind, lens: seq<nat>, s: nat, low: nat, e: Entry)
    requires |lens| <= MaxSymbols(kind) && HasCode(lens, s) && Good(t0, root, kind, lens, s) && low < Pow2(root)
    requires lens[s] <= root ==> Low(low, lens[s]) != Reversed(lens, s)
    requires lens[s] > root ==> Low(Reversed(lens, s), root) != low
    ensures Good(t0[low := e], root, kind, lens, s)
  {
  }

  /** Linking a new sub-table, for a prefix beyond all those entered, touches no good entry. */
  lemma LinkStep(t0: seq<Entry>, root: nat, kind: Kind, lens: seq<nat>, c: nat, pl: int,
                 next: nat, curr: nat, next1: nat, curr1: nat)
    requires ValidLens(lens) && NotOver(lens) && |lens| <= MaxSymbols(kind) && HasCode(lens, c) && lens[c] > root
    requires Prefix(lens, c, root) > pl
    requires AllGood(t0, root, kind, lens, lens[c], Count(lens[..c], lens[c]), pl, next)
    requires Pow2(root) <= next + Pow2(curr) <= next1 && pl < Pow2(root)
    requires 0 <= pl ==> t0[Rev(pl, root)] == Entry(curr, root, next)
    ensures Rev(Prefix(lens, c, root), root) < |t0|
    ensures var t1 := t0[Rev(Prefix(lens, c, root), root) := Entry(curr1, root, next1)];
            AllGood(t1, root, kind, lens, lens[c], Count(lens[..c], lens[c]), Prefix(lens, c, root), next1)
  {
    hide Good, Rev, Low, Shr, Code, NotOver;
    var p := Prefix(lens, c, root);
    var low := Rev(p, root);
    PrefixIndex(lens, c, root);
    var e := Entry(curr1, root, next1);
    forall s: nat | Done(lens, s, lens[c], Count(lens[..c], lens[c]))
      ensures Good(t0[low := e], root, kind, lens, s) && Placed(t0[low := e], root, lens, s, p, next1)
    {
      if lens[s] <= root {
        LinkApart(lens, s, c, root);
      } else {
        PrefixIndex(lens, s, root);
        if Low(Reversed(lens, s), root) == low {
          RevInjective(Prefix(lens, s, root), p, root);
        }
      }
      WriteKeeps(t0, root, kind, lens, s, low, e);
    }
  }

  /** Cutting off the unused end of the table. */
  lemma CutStep(t: seq<Entry>, root: nat, kind: Kind, lens: seq<nat>, s: nat, pl: int, next: nat, curr: nat)
    requires ValidLens(lens) && NotOver(lens) && |lens| <= MaxSymbols(kind) && HasCode(lens, s)
    requires Good(t, root, kind, lens, s) && Placed(t, root, lens, s, pl, next)
    requires Pow2(root) <= next + Pow2(curr) <= |t| && pl < Pow2(root)
    requires 0 <= pl ==> t[Rev(pl, root)] == Entry(curr, root, next)
    ensures Good(t[..next + Pow2(curr)], root, kind, lens, s)
  {
    if lens[s] > root {
      PrefixIndex(lens, s, root);
    }
  }

  // ---------- looking a buffer up ----------

  predicate IsLink(e: Entry)
  {
    1 <= e.op <= 15
  }

  /** The entry that a buffer leads to in at most two steps, and the number of bits it takes. */
  ghost predicate Finds(t: seq<Entry>, root: nat, h: nat, e: Entry, n: nat)
    requires Pow2(root) <= |t|
  {
    var first := t[Low(h, root)];
    if IsLink(first) then
      var k := first.val + Low(Shr(h, first.bits), first.op);
      k < |t| && !IsLink(t[k]) && e == t[k] && n == first.bits + t[k].bits
    else
      e == first && n == first.bits
  }

  lemma FindsShort(t: seq<Entry>, root: nat, r: nat, n: nat, e: Entry, h: nat)
    requires n <= root && Slots(t, 0, root, r, n, e) && Low(h, n) == r
    ensures t[Low(h, root)] == e
  {
    LowLow(h, n, root);
    assert t[0 + Low(h, root)] == e;
  }

  lemma FindsLong(t: seq<Entry>, root: nat, r: nat, n: nat, e: Entry, h: nat)
    requires Pow2(root) <= |t| && GoodLong(t, root, r, n, e) && Low(h, root + n) == r
    ensures var link := t[Low(h, root)];
            && IsLink(link) && link.bits == root && n <= link.op
            && link.val + Low(Shr(h, root), link.op) < |t|
            && t[link.val + Low(Shr(h, root), link.op)] == e
  {
    LowLow(h, root, root + n);
    var link := t[Low(h, root)];
    LowShr(h, root, n);
    LowLow(Shr(h, root), n, link.op);
  }

  lemma NotLinks(kind: Kind, s: nat, n: nat)
    requires s < MaxSymbols(kind)
    ensures !IsLink(SymEntry(kind, s, n))
    ensures SymEntry(kind, s, n) == SymEntry(kind, s, 0).(bits := n)
  {
  }

  /** A buffer that starts with the code of s is led to the entry of s, taking exactly lens[s] bits. */
  lemma FindsSymbol(t: seq<Entry>, root: nat, kind: Kind, lens: seq<nat>, s: nat, h: nat)
    requires |lens| <= MaxSymbols(kind) && HasCode(lens, s) && Good(t, root, kind, lens, s) && StartsWith(lens, s, h)
    ensures Finds(t, root, h, SymEntry(kind, s, if lens[s] <= root then lens[s] else lens[s] - root), lens[s])
  {
    if lens[s] <= root {
      NotLinks(kind, s, lens[s]);
      FindsShort(t, root, Reversed(lens, s), lens[s], SymEntry(kind, s, lens[s]), h);
    } else {
      NotLinks(kind, s, lens[s] - root);
      FindsLong(t, root, Reversed(lens, s), lens[s] - root, SymEntry(kind, s, lens[s] - root), h);
    }
  }

  /** In the one incomplete case inflate accepts, a buffer that starts with no code is marked invalid. */
  lemma FindsInvalid(t: seq<Entry>, root: nat, kind: Kind, lens: seq<nat>, h: nat)
    requires ValidLens(lens) && |lens| <= MaxSymbols(kind) && IsTable(t, root, kind, lens)
    requires NoneStarts(lens, h)
    ensures !Complete(lens) && Finds(t, root, h, INVALID, 1) && Low(h, root) < |t| && t[Low(h, root)] == INVALID
  {
    if Complete(lens) {
      var s := Covered(lens, h);
      assert false;
    }
    var i := Low(h, 1);
    forall s: nat | HasCode(lens, s)
      ensures !StartsWith(lens, s, i)
    {
      assert !StartsWith(lens, s, h);
      LowLow(h, 1, 1);
    }
    assert NoneStarts(lens, i);
  }
}
