/**
 Decoding one symbol with a table (the LEN, DIST and CODELENS states of inflate.c): a lookup with a
 bit accumulator that holds too few bits, padded with zeros, never gives a wrong answer.
 */
module Lookup {
  import opened Shift
  import opened Bits
  import opened Canonical
  import opened InfTreesSpec
  import opened InfTrees
  import opened Format
  import opened FormatFacts
  import opened BlockRoundTrip
  import opened BitReading

  // ---------- what the accumulator says about the stream ----------

  lemma BitsOfHold(B: Bits, pos: nat, hold: nat, bits: nat, n: nat)
    requires Holds(B, pos, hold, bits) && n <= bits
    ensures BitsOf(Low(hold, n), n) == B[pos..pos + n]
  {
    HoldsDrop(B, pos, hold, bits, n);
    BitsOfValOf(B[pos..pos + n]);
  }

  /** A code is in the stream exactly if the accumulator starts with it and holds all of it. */
  lemma StartsIsAt(B: Bits, pos: nat, hold: nat, bits: nat, lens: seq<nat>, s: nat)
    requires Holds(B, pos, hold, bits) && HasCode(lens, s)
    ensures CodeAt(B, pos, lens, s) <==> lens[s] <= bits && StartsWith(lens, s, hold)
  {
    var n := lens[s];
    if n <= bits {
      BitsOfHold(B, pos, hold, bits, n);
      BitsOfRev(Code(lens, s), n);
      if CodeAt(B, pos, lens, s) {
        assert BitsOf(Low(hold, n), n) == BitsOf(Reversed(lens, s), n);
        ValOfBitsOf(Low(hold, n), n);
        ValOfBitsOf(Reversed(lens, s), n);
        Small(Low(hold, n), n);
        Small(Reversed(lens, s), n);
      }
    }
  }

  /** The entry for what is decoded, and the bits it takes. */
  ghost predicate Means(d: Decoded, kind: Kind, lens: seq<nat>, e: Entry, n: nat)
    requires |lens| <= MaxSymbols(kind)
  {
    match d
    case Symbol(s, k) => s < |lens| && k == n == lens[s] && e == SymEntry(kind, s, e.bits)
    case NoSymbol => e == INVALID && n == 1
    case Short => false
  }

  /** The entry the accumulator leads to is right as soon as enough bits are held. */
  lemma Exact(B: Bits, pos: nat, hold: nat, bits: nat, kind: Kind, lens: seq<nat>, t: seq<Entry>, root: nat)
    returns (e: Entry, n: nat)
    requires Holds(B, pos, hold, bits) && ValidLens(lens) && |lens| <= MaxSymbols(kind)
    requires Acceptable(kind, lens) && IsTable(t, root, kind, lens)
    ensures Finds(t, root, hold, e, n) && 1 <= n <= 15 && !IsLink(e)
    ensures IsLink(t[Low(hold, root)]) ==> t[Low(hold, root)].bits == root && n >= root + e.bits
    ensures n <= bits ==> Means(Decode(B, pos, lens), kind, lens, e, n)
    ensures n > bits ==> Decode(B, pos, lens).Short?
  {
    hide Decode, StartsWith, Code, Rev, Low, Shr, Good, Pow2, SymBits, Used;
    AcceptableFits(kind, lens);
    if s: nat :| HasCode(lens, s) && StartsWith(lens, s, hold) {
      FindsSymbol(t, root, kind, lens, s, hold);
      n := lens[s];
      e := SymEntry(kind, s, if lens[s] <= root then lens[s] else lens[s] - root);
      NotLinks(kind, s, e.bits);
      LinkBits(t, root, kind, lens, s, hold);
      StartsIsAt(B, pos, hold, bits, lens, s);
      if n <= bits {
        DecodeIs(B, pos, lens, s);
      } else {
        NotEnough(B, pos, hold, bits, kind, lens, s);
      }
    } else {
      assert NoneStarts(lens, hold);
      FindsInvalid(t, root, kind, lens, hold);
      e, n := INVALID, 1;
      NothingThere(B, pos, hold, bits, lens);
    }
  }

  lemma LinkBits(t: seq<Entry>, root: nat, kind: Kind, lens: seq<nat>, s: nat, h: nat)
    requires |lens| <= MaxSymbols(kind) && HasCode(lens, s) && Good(t, root, kind, lens, s) && StartsWith(lens, s, h)
    ensures Low(h, root) < |t|
    ensures IsLink(t[Low(h, root)]) ==> lens[s] > root && t[Low(h, root)].bits == root
  {
    if lens[s] <= root {
      NotLinks(kind, s, lens[s]);
      FindsShort(t, root, Reversed(lens, s), lens[s], SymEntry(kind, s, lens[s]), h);
    } else {
      FindsLong(t, root, Reversed(lens, s), lens[s] - root, SymEntry(kind, s, lens[s] - root), h);
    }
  }

  /** The accumulator starts with a code that is not all there yet. */
  lemma NotEnough(B: Bits, pos: nat, hold: nat, bits: nat, kind: Kind, lens: seq<nat>, s: nat)
    requires Holds(B, pos, hold, bits) && ValidLens(lens) && Acceptable(kind, lens)
    requires HasCode(lens, s) && StartsWith(lens, s, hold) && lens[s] > bits
    ensures Decode(B, pos, lens).Short?
  {
    hide StartsWith, Code, SymBits, Used;
    AcceptableFits(kind, lens);
    forall x: nat | HasCode(lens, x)
      ensures !CodeAt(B, pos, lens, x)
    {
      StartsIsAt(B, pos, hold, bits, lens, x);
      if CodeAt(B, pos, lens, x) {
        AloneReversed(lens, x, s, hold);
      }
    }
  }

  lemma NothingThere(B: Bits, pos: nat, hold: nat, bits: nat, lens: seq<nat>)
    requires Holds(B, pos, hold, bits) && NoneStarts(lens, hold) && !Complete(lens)
    ensures Decode(B, pos, lens) == if bits >= 1 then NoSymbol else Short
  {
    hide StartsWith, Code, SymBits, Used;
    forall x: nat | HasCode(lens, x)
      ensures !CodeAt(B, pos, lens, x)
    {
      StartsIsAt(B, pos, hold, bits, lens, x);
    }
  }

  lemma {:induction false} LowOfSum(hold: nat, v: nat, bits: nat, n: nat)
    requires n <= bits
    ensures Low(hold + Shl(v, bits), n) == Low(hold, n)
  {
    if n > 0 {
      assert Shl(v, bits) == 2 * Shl(v, bits - 1);
      assert (hold + Shl(v, bits)) / 2 == hold / 2 + Shl(v, bits - 1);
      LowOfSum(hold / 2, v, bits - 1, n - 1);
    }
  }

  /** Either nothing was read, or the last byte read was needed: without it there was no whole code. */
  ghost predicate JustEnough(given0: seq<byte>, given: seq<byte>, pos: nat, lens: seq<nat>)
  {
    given == given0 || (given != [] && Decode(BytesBits(given[..|given| - 1]), pos, lens).Short?)
  }

  /** The reader r, which was at byte next0 of its input, is still at bit pos and has read no byte it did not need. */
  ghost predicate Reading(r: BitReader, given0: seq<byte>, next0: nat, pos: nat, lens: seq<nat>)
    reads r
  {
    && r.Valid() && r.Pos() == pos && r.bits <= 24 && r.Read(given0, next0) && given0 <= r.given
    && |r.given| - |given0| == r.next - next0 && JustEnough(given0, r.given, pos, lens)
  }

  method ReadMore(r: BitReader, ghost given0: seq<byte>, ghost next0: nat, ghost lens: seq<nat>)
    requires r.bits <= 8 * |r.given| && Reading(r, given0, next0, r.Pos(), lens) && r.next < |r.input| && r.bits <= 14
    requires Decode(r.Stream(), r.Pos(), lens).Short?
    modifies r`hold, r`bits, r`next, r`given
    ensures Reading(r, given0, next0, old(r.Pos()), lens) && r.bits == old(r.bits) + 8 && r.next == old(r.next) + 1
    ensures exists b: byte :: r.hold == old(r.hold) + Shl(b, old(r.bits))
  {
    hide Decode, Holds, Shl;
    ghost var k := r.next;
    ghost var b := r.input[k];
    r.PullByte();
    assert r.given[..|r.given| - 1] == old(r.given);
    assert r.input[next0..r.next] == r.input[next0..k] + [b];
  }

  method FirstLookup(r: BitReader, t: seq<Entry>, root: nat, ghost kind: Kind, ghost lens: seq<nat>)
    returns (ok: bool, e: Entry)
    requires r.Valid() && r.bits <= 24 && ValidLens(lens) && |lens| <= MaxSymbols(kind)
    requires Acceptable(kind, lens) && IsTable(t, root, kind, lens)
    modifies r`hold, r`bits, r`next, r`given
    ensures Reading(r, old(r.given), old(r.next), old(r.Pos()), lens)
    ensures ok ==> Low(r.hold, root) < |t| && e == t[Low(r.hold, root)] && e.bits <= r.bits
    ensures !ok ==> r.next == |r.input| && Decode(r.Stream(), r.Pos(), lens).Short? && r.bits <= 14
  {
    hide IsTable, Decode, Means, Holds, Shl, Shr, Low, Pow2, Acceptable, ValidLens;
    TableSize(t, root, kind, lens);
    ok := false;
    assert r.given == r.given + r.input[r.next..r.next];
    ghost var pos := r.Pos();
    while true
      invariant Reading(r, old(r.given), old(r.next), pos, lens)
      decreases |r.input| - r.next
    {
      ghost var found, n := Exact(r.Stream(), pos, r.hold, r.bits, kind, lens, t, root);
      LowInTable(r.hold, root, t);
      e := t[Low(r.hold, root)];
      if e.bits <= r.bits {
        return true, e;
      }
      FirstShort(t, root, r.hold, found, n, e);
      if r.next == |r.input| {
        return;
      }
      ReadMore(r, old(r.given), old(r.next), lens);
    }
  }

  method SecondLookup(r: BitReader, t: seq<Entry>, root: nat, last: Entry, ghost kind: Kind, ghost lens: seq<nat>,
                      ghost given0: seq<byte>, ghost next0: nat) returns (ok: bool, e: Entry)
    requires r.Valid() && Reading(r, given0, next0, r.Pos(), lens) && ValidLens(lens) && |lens| <= MaxSymbols(kind)
    requires Acceptable(kind, lens) && IsTable(t, root, kind, lens)
    requires Low(r.hold, root) < |t| && last == t[Low(r.hold, root)] && IsLink(last) && last.bits <= r.bits
    modifies r`hold, r`bits, r`next, r`given
    ensures Reading(r, given0, next0, old(r.Pos()), lens)
    ensures ok ==>
             last.bits + e.bits <= r.bits && Means(Decode(r.Stream(), old(r.Pos()), lens), kind, lens, e,
                 last.bits + e.bits)
    ensures !ok ==> r.next == |r.input| && Decode(r.Stream(), r.Pos(), lens).Short? && r.bits <= 14
  {
    hide IsTable, Decode, Means, Holds, Shl, Shr, Low, Pow2, Acceptable, ValidLens;
    TableSize(t, root, kind, lens);
    ok := false;
    ghost var pos := r.Pos();
    ghost var f, m := Exact(r.Stream(), pos, r.hold, r.bits, kind, lens, t, root);
    while true
      invariant Reading(r, given0, next0, pos, lens) && root <= r.bits
      invariant Low(r.hold, root) < |t| && last == t[Low(r.hold, root)]
      decreases |r.input| - r.next
    {
      ghost var found, n := Exact(r.Stream(), pos, r.hold, r.bits, kind, lens, t, root);
      SecondEntry(t, root, r.hold, found, n, last);
      e := t[last.val + Shr(Low(r.hold, last.bits + last.op), last.bits)];
      if last.bits + e.bits <= r.bits {
        return true, e;
      }
      if r.next == |r.input| {
        return;
      }
      ghost var hold, bits := r.hold, r.bits;
      ReadMore(r, given0, next0, lens);
      ghost var b: byte :| r.hold == hold + Shl(b, bits);
      LowOfSum(hold, b, bits, root);
    }
  }

  /** The second index: the bits above those of the first. */
  lemma SecondEntry(t: seq<Entry>, root: nat, h: nat, e: Entry, n: nat, last: Entry)
    requires Pow2(root) <= |t| && Finds(t, root, h, e, n) && Low(h, root) < |t| && last == t[Low(h, root)]
    requires IsLink(last)
    ensures last.val + Shr(Low(h, last.bits + last.op), last.bits) < |t|
    ensures t[last.val + Shr(Low(h, last.bits + last.op), last.bits)] == e && n == last.bits + e.bits
  {
    LowShr(h, last.bits, last.op);
  }

  /** Nothing was read but what was needed, and what was decoded is the entry. */
  lemma FirstIsAll(t: seq<Entry>, root: nat, h: nat, e: Entry, n: nat, first: Entry)
    requires Pow2(root) <= |t| && Finds(t, root, h, e, n) && Low(h, root) < |t| && first == t[Low(h, root)]
    requires !IsLink(first)
    ensures e == first && n == first.bits
  {
  }

  /**
   The lookup loops: reads bytes until the entry for the next code is complete, and drops the bits of
   the code.
   */
  method GetEntry(r: BitReader, t: seq<Entry>, root: nat, ghost kind: Kind, ghost lens: seq<nat>)
    returns (ok: bool, e: Entry)
    requires r.Valid() && r.bits <= 24 && ValidLens(lens) && |lens| <= MaxSymbols(kind)
    requires Acceptable(kind, lens) && IsTable(t, root, kind, lens)
    modifies r`hold, r`bits, r`next, r`given
    ensures r.Valid() && r.Read(old(r.given), old(r.next)) && |r.given| - |old(r.given)| == r.next - old(r.next)
    ensures JustEnough(old(r.given), r.given, old(r.Pos()), lens) && old(r.given) <= r.given
    ensures ok ==>
             r.Pos() >= old(r.Pos()) && Means(Decode(r.Stream(), old(r.Pos()), lens), kind, lens, e,
                 r.Pos() - old(r.Pos()))
    ensures !ok ==>
             r.next == |r.input| && r.Pos() == old(r.Pos()) && Decode(r.Stream(), r.Pos(), lens).Short? && r.bits <= 14
  {
    hide IsTable, Decode, Means, Holds, Shl, Shr, Low, Pow2, Acceptable, ValidLens;
    TableSize(t, root, kind, lens);
    ok, e := FirstLookup(r, t, root, kind, lens);
    if !ok {
      return;
    }
    ghost var found, n := Exact(r.Stream(), r.Pos(), r.hold, r.bits, kind, lens, t, root);
    if e.op != 0 && e.op < 16 {       // op & 0xf0 is 0
      var last := e;
      ok, e := SecondLookup(r, t, root, last, kind, lens, old(r.given), old(r.next));
      if !ok {
        return;
      }
      r.DropBits(last.bits);
    } else {
      FirstIsAll(t, root, r.hold, found, n, e);
    }
    r.DropBits(e.bits);
  }

  /** The lookup loop of the CODELENS state, which leaves the bits of the code in the accumulator. */
  method GetLengthEntry(r: BitReader, t: seq<Entry>, root: nat, ghost lens: seq<nat>) returns (ok: bool, e: Entry)
    requires r.Valid() && r.bits <= 24 && ValidLens(lens) && |lens| <= 19
    requires Acceptable(CODES, lens) && IsTable(t, root, CODES, lens) && NoLonger(lens, root)
    modifies r`hold, r`bits, r`next, r`given
    ensures Reading(r, old(r.given), old(r.next), old(r.Pos()), lens)
    ensures ok ==>
             e.bits <= r.bits && e.val < 19 && e.bits <= 15 && DecodeLength(r.Stream(), r.Pos(), lens)
                 == Symbol(e.val, e.bits)
    ensures !ok ==> r.next == |r.input| && Decode(r.Stream(), r.Pos(), lens).Short? && r.bits <= 14
  {
    hide IsTable, Decode, Holds, Shl, Shr, Low, Pow2, Acceptable, ValidLens, Finds;
    ok, e := FirstLookup(r, t, root, CODES, lens);
    if ok {
      ghost var found, n := Exact(r.Stream(), r.Pos(), r.hold, r.bits, CODES, lens, t, root);
      TableSize(t, root, CODES, lens);
      NoLinkHere(r.Stream(), r.Pos(), r.hold, r.bits, lens, t, root, found, n);
      FirstIsAll(t, root, r.hold, found, n, e);
    }
  }

  lemma NoLinkHere(B: Bits, pos: nat, hold: nat, bits: nat, lens: seq<nat>, t: seq<Entry>, root: nat, e: Entry, n: nat)
    requires Holds(B, pos, hold, bits) && ValidLens(lens) && |lens| <= 19 && NoLonger(lens, root)
    requires Acceptable(CODES, lens) && IsTable(t, root, CODES, lens)
    ensures Low(hold, root) < |t| && !IsLink(t[Low(hold, root)])
  {
    hide Decode, StartsWith, Code, Rev, Low, Shr, Good, Pow2, SymBits, Used;
    if s: nat :| HasCode(lens, s) && StartsWith(lens, s, hold) {
      LinkBits(t, root, CODES, lens, s, hold);
    } else {
      assert NoneStarts(lens, hold);
      FindsInvalid(t, root, CODES, lens, hold);
    }
  }

  /** The lookup of inflate_fast, with enough bits held for any code. */
  method FastEntry(r: BitReader, t: seq<Entry>, root: nat, ghost kind: Kind, ghost lens: seq<nat>) returns (e: Entry)
    requires r.Valid() && 15 <= r.bits && ValidLens(lens) && |lens| <= MaxSymbols(kind)
    requires Acceptable(kind, lens) && IsTable(t, root, kind, lens)
    modifies r`hold, r`bits
    ensures r.Valid() && old(r.Pos()) <= r.Pos() <= old(r.Pos()) + 15
    ensures Means(Decode(r.Stream(), old(r.Pos()), lens), kind, lens, e, r.Pos() - old(r.Pos()))
  {
    hide IsTable, Decode, Means, Holds, Pow2, Acceptable, ValidLens, Low, Shr;
    ghost var h, pos := r.hold, r.Pos();
    TableSize(t, root, kind, lens);
    ghost var found, n := Exact(r.Stream(), pos, h, r.bits, kind, lens, t, root);
    LowInTable(h, root, t);
    e := t[Low(r.hold, root)];
    if e.op != 0 && e.op < 16 {
      var last := e;
      SecondEntry(t, root, h, found, n, last);
      LowShr(h, last.bits, last.op);
      r.DropBits(last.bits);
      e := t[last.val + Low(r.hold, last.op)];
    } else {
      FirstIsAll(t, root, h, found, n, e);
    }
    r.DropBits(e.bits);
  }

  lemma TableSize(t: seq<Entry>, root: nat, kind: Kind, lens: seq<nat>)
    requires |lens| <= MaxSymbols(kind) && IsTable(t, root, kind, lens)
    ensures 1 <= root <= 15 && Pow2(root) <= |t|
  {
  }

  lemma LowInTable(h: nat, root: nat, t: seq<Entry>)
    requires Pow2(root) <= |t|
    ensures Low(h, root) < |t|
  {
  }

  /** Too few bits for the first entry are too few for the code. */
  lemma FirstShort(t: seq<Entry>, root: nat, h: nat, e: Entry, n: nat, first: Entry)
    requires Pow2(root) <= |t| && Finds(t, root, h, e, n) && Low(h, root) < |t| && first == t[Low(h, root)]
    ensures first.bits <= n
    ensures !IsLink(first) ==> e == first && n == first.bits
  {
  }
}
