/**
 The decoder that inflate() (inflate.c) and inflateBack() (infback.c) share: from the bits of the stream to the
 symbols, whatever becomes of the output.
 */
module Decoders {
  import opened Shift
  import opened Bits
  import opened Canonical
  import opened InfTreesSpec
  import opened InfTrees
  import opened Format
  import opened FormatFacts
  import opened BlockCode
  import opened BlockRoundTrip
  import opened BitReading
  import opened Lookup
  import opened InflateStates

  class Decoder {
    var st: Ctl
    /** hold and bits, and the input. */
    const r: BitReader
    /** Where the machine that reads the whole stream stands. */
    ghost var abs: State

    ghost predicate BitsOk()
      reads `abs, r
    {
      && r.Valid() && GoodState(abs)
      && abs.pos == (if abs.mode.Stored? then Align(r.Pos()) else r.Pos())
      && (!abs.mode.Bad? ==> r.bits <= 24 && Tight(r.given, abs))
      && (abs.mode.Copying? ==> r.bits == 0)
    }

    ghost predicate Inv()
      reads this, r
    {
      BitsOk() && Matches(st, abs)
    }

    /** What has happened since the input was at next0 and the machine at a0. */
    ghost predicate Moved(given0: seq<byte>, next0: nat, a0: State)
      reads `abs, r
    {
      && r.Read(given0, next0) && given0 <= r.given && |r.given| - |given0| == r.next - next0
      && Reach(r.Stream(), a0, abs) && a0.pos <= abs.pos
    }

    /** The input is used up, and the next step needs more. */
    ghost predicate Starved()
      reads `abs, r
    {
      r.next == |r.input| && Next(r.Stream(), abs).None? && !Final(abs)
    }

    lemma MovedParts(given0: seq<byte>, next0: nat, a0: State)
      requires Moved(given0, next0, a0)
      ensures next0 <= r.next <= |r.input| && r.given == given0 + r.input[next0..r.next]
      ensures Reach(BytesBits(r.given), a0, abs) && a0.pos <= abs.pos
    {
    }

    constructor ()
      ensures Inv() && fresh(r) && st.mode.HEAD? && abs == START && r.given == [] && r.bits == 0
    {
      st := Ctl(HEAD, false, 0, 0, 0, 0, 0, 0, 0, seq(LENS_SIZE, _ => 0), [], 0, [], 0);
      var reader := new BitReader();
      r, abs := reader, START;
    }

    /** The start of inflateBack: at the first block, with this input; some output is taken to be there already. */
    method Reset(input: seq<byte>, ghost out: seq<byte>)
      requires Inv() && st.mode.HEAD? && r.given == [] && r.bits == 0 && abs == START
      modifies r`input, r`next, `st, `abs
      ensures Inv() && abs == START.(out := out) && r.given == [] && r.input == input && r.next == 0
      ensures st.mode.TYPE?
    {
      hide Holds, GoodMode, TablesFor, ValidLens;
      r.input, r.next := input, 0;
      st := st.(mode := TYPE);
      abs := START.(out := out);
    }

    /** The machine goes one step on. */
    ghost method Step(b: State, given0: seq<byte>, next0: nat)
      requires r.Valid() && r.Read(given0, next0) && |r.given| - |given0| == r.next - next0 && given0 <= r.given
      requires GoodState(abs) && Tight(given0, abs) && Needed(given0, r.given, abs) && Goes(r.Stream(), abs, b, st)
      requires b.pos == if b.mode.Stored? then Align(r.Pos()) else r.Pos()
      requires b.mode.Copying? ==> r.bits == 0
      modifies `abs
      ensures abs == b && BitsOk() && Moved(given0, next0, old(abs)) && abs.out == old(abs).out && Matches(st, abs)
    {
      hide Next, GoodState, Tight, Matches, Needed, Reach;
      StepDone(given0, r.given, abs, b);
      OutStep(r.Stream(), abs, b);
      if b.mode.Stored? {
        NearEnd(r.Pos(), 8 * |r.given|);
      }
      abs := b;
    }

    lemma Opened()
      requires BitsOk()
      ensures r.Valid() && GoodState(abs)
      ensures abs.pos == if abs.mode.Stored? then Align(r.Pos()) else r.Pos()
      ensures !abs.mode.Bad? ==> r.bits <= 24 && Tight(r.given, abs)
      ensures abs.mode.Copying? ==> r.bits == 0
    {
    }

    /** NEEDBITS at the start of a step, which needs n bits; when they are not there the loop is left. */
    method Need(n: nat) returns (ok: bool)
      requires BitsOk() && !abs.mode.Bad? && NeedOf(abs) == n && 0 < n <= 32 && abs.pos == r.Pos()
      requires n > 24 ==> r.bits % 8 == 0 && n == 32
      modifies r`hold, r`bits, r`next, r`given
      ensures r.Valid() && r.Read(old(r.given), old(r.next)) && |r.given| - |old(r.given)| == r.next - old(r.next)
      ensures old(r.given) <= r.given && r.Pos() == old(r.Pos())
      ensures Needed(old(r.given), r.given, abs)
      ensures if ok then r.bits >= n else BitsOk() && Moved(old(r.given), old(r.next), abs) && Starved() && r.bits < n
      ensures r.given == old(r.given) || r.bits < n + 8
      ensures n == 32 && old(r.bits) % 8 == 0 ==> r.bits % 8 == 0
    {
      hide Tight, GoodState, Reach, Align, Next, GoodMode;
      ghost var given0 := r.given;
      ok := r.NeedBits(n);
      NeededBits(given0, r.given, abs);
      if !ok {
        ReachSelf(r.Stream(), abs);
        ShortNeed(r.Stream(), abs);
        TightStays(given0, r.given, abs);
        if abs.mode.Stored? {
          Aligned(old(r.Pos()));
        }
      }
    }

    /** The mode that the fields name. */
    lemma Kind()
      requires Matches(st, abs)
      ensures st.last == abs.last
      ensures st.mode.TYPE? || st.mode.HEAD? <==> abs.mode.Type?
      ensures (st.mode.STORED? <==> abs.mode.Stored?) && (st.mode.COPY? <==> abs.mode.Copying?)
      ensures (st.mode.TABLE? <==> abs.mode.Table?)
      ensures (st.mode.LENLENS? <==> abs.mode.LenLens?) && (st.mode.CODELENS? <==> abs.mode.CodeLens?)
      ensures (st.mode.LEN? <==> abs.mode.Len?) && (st.mode.LENEXT? <==> abs.mode.LenExt?)
      ensures (st.mode.DIST? <==> abs.mode.Dist?) && (st.mode.DISTEXT? <==> abs.mode.DistExt?)
      ensures (st.mode.MATCH? <==> abs.mode.Match?) && (st.mode.LIT? <==> abs.mode.Lit?)
      ensures (st.mode.CHECK? || st.mode.DONE? <==> abs.mode.Done?) && (st.mode.BAD? <==> abs.mode.Bad?)
    {
    }

    /** Everything the next step needs has been read. */
    ghost predicate HasRead(given0: seq<byte>, next0: nat)
      reads this, r
    {
      && Matches(st, abs) && GoodState(abs)
      && r.Valid() && r.Read(given0, next0) && |r.given| - |given0| == r.next - next0 && given0 <= r.given
      && Tight(given0, abs) && Needed(given0, r.given, abs) && abs.pos == r.Pos()
    }

    /** TYPE: the header of the next block, or the end of the stream. */
    method DoType() returns (leave: bool)
      requires Inv() && st.mode.TYPE?
      modifies r`hold, r`bits, r`next, r`given, `st, `abs
      ensures Inv() && Moved(old(r.given), old(r.next), old(abs)) && abs.out == old(abs).out
      ensures leave ==> Starved()
      ensures !st.mode.HEAD? && !st.mode.DONE? && !InPair(st.mode)
      ensures r.Valid() && old(r.Valid())
      ensures !leave ==> r.Pos() >= old(r.Pos()) && (r.Pos() > old(r.Pos()) || Rank(st.mode) < old(Rank(st.mode)))
    {
      hide BitsOk, Moved, Starved, Tight, Needed, GoodState, Goes, Matches, Num, Reach, Align, Next, Holds,
           BytesBits, Low, Shr, Pow2, FixedCodes, TablesFor;
      Opened();
      Kind();
      ghost var given0, next0 := r.given, r.next;
      if st.last {
        r.ByteBits();
        NothingNeeded(given0, abs);
        NothingRead(given0, r.input, r.next);
        ghost var done := LastGoes(r.Stream(), abs, st);
        st := st.(mode := CHECK);
        Step(done, given0, next0);
        return false;
      }
      var ok := Need(3);
      if !ok {
        return true;
      }
      BlockHeader(given0, next0);
      leave := false;
    }

    /** The header of the block is held. */
    method BlockHeader(ghost given0: seq<byte>, ghost next0: nat)
      requires HasRead(given0, next0) && st.mode.TYPE? && !st.last && 3 <= r.bits <= 8 * |r.given|
      modifies r`hold, r`bits, `st, `abs
      ensures Inv() && Moved(given0, next0, old(abs)) && abs.out == old(abs).out && r.Valid() && old(r.Valid())
      ensures r.Pos() > old(r.Pos())
      ensures !st.mode.HEAD? && !st.mode.DONE? && !InPair(st.mode)
    {
      hide BitsOk, Moved, Starved, Tight, Needed, GoodState, Goes, Matches, Num, Reach, Align, Next, Holds,
           BytesBits, Low, Shr, Pow2, FixedCodes, TablesFor, Decode, DecodeLength, Acceptable, IsTable, NoLonger,
           ValidLens, Means, JustEnough;
      Kind();
      var fixed := FixedTables(st);
      ghost var b := TypeGoes(r.Stream(), abs, st, fixed);
      var last, kind;
      last := r.GetBits(1);
      kind := r.GetBits(2);
      if kind == 0 {
        st := st.(last := last == 1, mode := STORED);
      } else if kind == 1 {
        st := fixed.(last := last == 1, mode := LEN);
      } else {
        st := st.(last := last == 1, mode := if kind == 2 then TABLE else BAD);
      }
      Step(b, given0, next0);
    }

    /** STORED: the length of a stored block and its complement. */
    method DoStored() returns (leave: bool)
      requires Inv() && st.mode.STORED?
      modifies r`hold, r`bits, r`next, r`given, `st, `abs
      ensures Inv() && Moved(old(r.given), old(r.next), old(abs)) && abs.out == old(abs).out
      ensures leave ==> Starved()
      ensures !st.mode.HEAD? && !st.mode.DONE? && !InPair(st.mode)
      ensures r.Valid() && old(r.Valid())
      ensures !leave ==> r.Pos() >= old(r.Pos()) && (r.Pos() > old(r.Pos()) || Rank(st.mode) < old(Rank(st.mode)))
    {
      hide BitsOk, Moved, Starved, Tight, Needed, GoodState, Goes, Matches, Num, Reach, Align, Next, Holds,
           BytesBits, Low, Shr, Pow2, FixedCodes, TablesFor;
      Opened();
      Kind();
      ghost var given0, next0 := r.given, r.next;
      r.ByteBits();
      Aligned(old(r.Pos()));
      BitsStay(given0);
      var ok := Need(32);
      if !ok {
        return true;
      }
      StoredLengths(given0, next0);
      leave := false;
    }

    /** The length and its complement are held. */
    method StoredLengths(ghost given0: seq<byte>, ghost next0: nat)
      requires HasRead(given0, next0) && st.mode.STORED? && r.bits == 32 && r.bits <= 8 * |r.given| && r.Pos() % 8 == 0
      modifies r`hold, r`bits, `st, `abs
      ensures Inv() && Moved(given0, next0, old(abs)) && abs.out == old(abs).out && r.Valid() && old(r.Valid())
      ensures r.Pos() >= old(r.Pos())
      ensures r.Pos() > old(r.Pos()) || Rank(st.mode) < old(Rank(st.mode))
      ensures !st.mode.HEAD? && !st.mode.DONE? && !InPair(st.mode)
    {
      hide BitsOk, Moved, Starved, Tight, Needed, GoodState, Goes, Matches, Num, Reach, Align, Next, Holds,
           BytesBits, Low, Shr, Pow2, FixedCodes, TablesFor;
      Kind();
      var lo, hi := r.Peek(16), Shr(r.hold, 16);
      HighHalf(r.Stream(), r.Pos(), r.hold, r.bits);
      ghost var b := StoredGoes(r.Stream(), abs, st);
      if lo != 0xffff - hi {
        st := st.(mode := BAD);
      } else {
        r.InitBits();
        st := st.(length := lo, mode := COPY);
      }
      Step(b, given0, next0);
    }

    lemma BitsStay(given: seq<byte>)
      requires r.Valid() && given == r.given && GoodState(abs) && abs.mode.Stored? && abs.pos == r.Pos()
      requires r.Pos() == Align(r.Pos())
      requires r.bits <= 24 && Tight(given, abs)
      ensures BitsOk()
    {
    }

    /** TABLE: the numbers of codes of a dynamic block. */
    method DoTable() returns (leave: bool)
      requires Inv() && st.mode.TABLE?
      modifies r`hold, r`bits, r`next, r`given, `st, `abs
      ensures Inv() && Moved(old(r.given), old(r.next), old(abs)) && abs.out == old(abs).out
      ensures leave ==> Starved()
      ensures !st.mode.HEAD? && !st.mode.DONE? && !InPair(st.mode)
      ensures r.Valid() && old(r.Valid())
      ensures !leave ==> r.Pos() >= old(r.Pos()) && (r.Pos() > old(r.Pos()) || Rank(st.mode) < old(Rank(st.mode)))
    {
      hide BitsOk, Moved, Starved, Tight, Needed, GoodState, Goes, Matches, Num, Reach, Align, Next, Holds,
           BytesBits, Low, Shr, Pow2, FixedCodes, TablesFor;
      Opened();
      Kind();
      ghost var given0, next0 := r.given, r.next;
      var ok := Need(14);
      if !ok {
        return true;
      }
      TableCounts(given0, next0);
      leave := false;
    }

    /** The numbers of codes are held. */
    method TableCounts(ghost given0: seq<byte>, ghost next0: nat)
      requires HasRead(given0, next0) && st.mode.TABLE? && 14 <= r.bits <= 8 * |r.given|
      modifies r`hold, r`bits, `st, `abs
      ensures Inv() && Moved(given0, next0, old(abs)) && abs.out == old(abs).out && r.Valid() && old(r.Valid())
      ensures r.Pos() > old(r.Pos())
      ensures !st.mode.HEAD? && !st.mode.DONE? && !InPair(st.mode)
    {
      hide BitsOk, Moved, Starved, Tight, Needed, GoodState, Goes, Matches, Num, Reach, Align, Next, Holds,
           BytesBits, Low, Shr, Pow2, FixedCodes, TablesFor, Decode, DecodeLength, Acceptable, IsTable, NoLonger,
           ValidLens, Means, JustEnough;
      Kind();
      ghost var b := TableGoes(r.Stream(), abs, st);
      var n, d, c;
      n := r.GetBits(5);
      d := r.GetBits(5);
      c := r.GetBits(4);
      st := st.(nlen := n + 257, ndist := d + 1, ncode := c + 4);
      if st.nlen > 286 || st.ndist > 30 {
        st := st.(mode := BAD);
      } else {
        st := st.(have := 0, mode := LENLENS);
      }
      Step(b, given0, next0);
    }

    lemma CountsAgree()
      requires Matches(st, abs) && st.mode.LENLENS? && GoodState(abs)
      ensures st.have == |abs.mode.sent| && st.ncode == abs.mode.ncode <= 19 && st.have <= st.ncode
      ensures 19 <= |st.lens| && ValidLens(st.lens)
    {
    }

    /** One length of the code length code. */
    method OneLenLen() returns (leave: bool)
      requires Inv() && st.mode.LENLENS? && st.have < st.ncode
      modifies r`hold, r`bits, r`next, r`given, `st, `abs
      ensures Inv() && Moved(old(r.given), old(r.next), old(abs)) && abs.out == old(abs).out
      ensures leave ==> Starved() && st == old(st)
      ensures r.Valid() && old(r.Valid()) && r.Pos() >= old(r.Pos())
      ensures !leave ==> st.mode.LENLENS? && st.have == old(st.have) + 1 && st.ncode == old(st.ncode)
    {
      hide BitsOk, Moved, Starved, Tight, Needed, GoodState, Goes, Matches, Num, Reach, Align, Next, Holds,
           BytesBits, Low, Shr, Pow2, FixedCodes, TablesFor;
      Opened();
      Kind();
      CountsAgree();
      ghost var given0, next0 := r.given, r.next;
      var ok := Need(3);
      if !ok {
        return true;
      }
      ghost var b := LenLensGoes(r.Stream(), abs, st);
      var v := r.GetBits(3);
      st := st.(lens := st.lens[ORDER[st.have] := v], have := st.have + 1);
      Step(b, given0, next0);
      leave := false;
    }

    lemma MovedOn(given0: seq<byte>, next0: nat, a0: State, given1: seq<byte>, next1: nat, a1: State)
      requires GoodState(a0) && next1 <= |r.input| && next0 <= next1 && given1 == given0 + r.input[next0..next1]
      requires Reach(BytesBits(given1), a0, a1) && a0.pos <= a1.pos && Moved(given1, next1, a1)
      ensures Moved(given0, next0, a0)
    {
      hide Reach, GoodState, BytesBits, Next;
      var more := r.given[|given1|..];
      assert r.given == given1 + more;
      BytesBitsAppend(given1, more);
      ReachLonger(BytesBits(given1), BytesBits(more), a0, a1);
      ReachTrans(r.Stream(), a0, a1, abs);
      assert r.input[next0..next1] + r.input[next1..r.next] == r.input[next0..r.next];
    }

    lemma MovedNot()
      requires r.Valid()
      ensures Moved(r.given, r.next, abs)
    {
      ReachSelf(r.Stream(), abs);
      NothingRead(r.given, r.input, r.next);
    }

    /** LENLENS: the lengths of the code length code, and its table. */
    method DoLenLens() returns (leave: bool)
      requires Inv() && st.mode.LENLENS?
      modifies r`hold, r`bits, r`next, r`given, `st, `abs
      ensures Inv() && Moved(old(r.given), old(r.next), old(abs)) && abs.out == old(abs).out
      ensures leave ==> Starved()
      ensures !st.mode.HEAD? && !st.mode.DONE? && !InPair(st.mode)
      ensures !leave ==> r.Pos() >= old(r.Pos()) && Rank(st.mode) < old(Rank(st.mode))
    {
      hide Acceptable, IsTable, NoLonger, Filled, ValidLens, BitsOk, Moved, Starved, Tight, Needed, GoodState,
           Goes, Matches, Num, Reach, Align, Next, Holds, BytesBits, Low, Shr, Pow2, FixedCodes, TablesFor;
      Opened();
      CountsAgree();
      MovedNot();
      ghost var a0, given0, next0 := abs, r.given, r.next;
      while st.have < st.ncode
        invariant Inv() && st.mode.LENLENS? && Moved(given0, next0, a0) && abs.out == a0.out
        invariant r.Valid() && r.Pos() >= old(r.Pos()) && GoodState(a0)
        decreases st.ncode - st.have
      {
        ghost var a1, given1, next1 := abs, r.given, r.next;
        MovedParts(given0, next0, a0);
        leave := OneLenLen();
        MovedOn(given0, next0, a0, given1, next1, a1);
        if leave {
          return;
        }
      }
      BuildLengthCode(a0, given0, next0);
      leave := false;
    }

    /** The rest of the code length code, and its table. */
    method BuildLengthCode(ghost a0: State, ghost given0: seq<byte>, ghost next0: nat)
      requires Inv() && st.mode.LENLENS? && st.have >= st.ncode && GoodState(a0) && Moved(given0, next0, a0)
      modifies `st, `abs
      ensures Inv() && Moved(given0, next0, a0) && abs.out == old(abs).out && (st.mode.CODELENS? || st.mode.BAD?)
    {
      hide Acceptable, IsTable, NoLonger, Filled, ValidLens, BitsOk, Moved, Starved, Tight, Needed, GoodState,
           Goes, Matches, Num, Reach, Align, Next, Holds, BytesBits, Low, Shr, Pow2, FixedCodes, TablesFor;
      Opened();
      Kind();
      CountsAgree();
      ghost var a1, given1, next1 := abs, r.given, r.next;
      MovedParts(given0, next0, a0);
      var lens := FillZeros(st.lens, st.have);
      SmallCode(abs, st, lens);
      PrefixValid(lens, 19);
      var ret, lencode, lenbits := InflateTable(CODES, lens[..19], 7);
      ghost var b := CodeBuilt(r.Stream(), abs, st, lens, lencode, lenbits, ret == 0);
      if ret != 0 {
        st := st.(lens := lens, have := 19, lencode := lencode, lenbits := lenbits, mode := BAD);
      } else {
        st := st.(lens := lens, have := 0, lencode := lencode, lenbits := lenbits, mode := CODELENS);
      }
      NothingNeeded(given1, abs);
      NothingRead(given1, r.input, next1);
      Step(b, given1, next1);
      MovedOn(given0, next0, a0, given1, next1, a1);
    }

    lemma LengthsAgree()
      requires Matches(st, abs) && st.mode.CODELENS? && GoodState(abs)
      ensures st.have == |abs.mode.lens| <= st.nlen + st.ndist == abs.mode.nlen + abs.mode.ndist
      ensures 257 <= st.nlen <= 286 && 1 <= st.ndist <= 30
      ensures |st.lens| == LENS_SIZE && ValidLens(st.lens) && |abs.mode.cl| == 19 && ValidLens(abs.mode.cl)
      ensures Acceptable(CODES, abs.mode.cl) && IsTable(st.lencode, st.lenbits, CODES, abs.mode.cl)
      ensures NoLonger(abs.mode.cl, st.lenbits)
      ensures st.have > 0 ==> st.lens[st.have - 1] <= 15
    {
      hide Acceptable, IsTable, NoLonger;
    }

    /** The input ran out while the machine stayed in a. */
    lemma Waits(given0: seq<byte>, next0: nat)
      requires r.Valid() && r.Read(given0, next0) && |r.given| - |given0| == r.next - next0 && given0 <= r.given
      requires GoodState(abs) && Tight(given0, abs) && Needed(given0, r.given, abs) && r.next == |r.input|
      requires Next(r.Stream(), abs).None?
      requires abs.pos == r.Pos() && !abs.mode.Stored? && r.bits <= 24 && !abs.mode.Copying? && !Final(abs)
      ensures BitsOk() && Moved(given0, next0, abs) && Starved()
    {
      hide GoodState, Next, Reach;
      TightStays(given0, r.given, abs);
      ReachSelf(r.Stream(), abs);
    }

    lemma ReadingParts(given0: seq<byte>, next0: nat, pos: nat, cl: seq<nat>)
      requires Reading(r, given0, next0, pos, cl)
      ensures r.Valid() && r.Pos() == pos && r.bits <= 24 && r.Read(given0, next0) && given0 <= r.given
      ensures |r.given| - |given0| == r.next - next0 && JustEnough(given0, r.given, pos, cl)
    {
    }

    /** A code length of its own. */
    method PlainLength(e: Entry, ghost given0: seq<byte>, ghost next0: nat)
      requires Matches(st, abs) && st.mode.CODELENS? && st.have < st.nlen + st.ndist && GoodState(abs)
      requires r.Valid() && r.Read(given0, next0) && |r.given| - |given0| == r.next - next0 && given0 <= r.given
      requires Tight(given0, abs) && abs.pos == r.Pos() && r.bits <= 24
      requires JustEnough(given0, r.given, abs.pos, abs.mode.cl)
      requires e.bits <= r.bits && e.bits <= 15
      requires DecodeLength(r.Stream(), r.Pos(), abs.mode.cl) == Symbol(e.val, e.bits)
      requires e.val < 16
      modifies r`hold, r`bits, `st, `abs
      ensures Inv() && Moved(given0, next0, old(abs)) && abs.out == old(abs).out && r.Valid() && r.Pos() >= old(r.Pos())
      ensures st.nlen == old(st.nlen) && st.ndist == old(st.ndist)
      ensures st.mode.CODELENS? && st.have == old(st.have) + 1
    {
      hide BitsOk, Moved, Starved, Tight, Needed, GoodState, Goes, Matches, Num, Reach, Align, Next, Holds,
           BytesBits, Low, Shr, Pow2, FixedCodes, TablesFor, Decode, DecodeLength, Acceptable, IsTable, NoLonger,
           ValidLens;
      Kind();
      LengthsAgree();
      LengthNeeded(given0, r.given, r.given, abs, e.val, e.bits, 0);
      ghost var b := PlainGoes(r.Stream(), abs, st, e.val, e.bits);
      r.DropBits(e.bits);
      st := st.(lens := st.lens[st.have := e.val], have := st.have + 1);
      Step(b, given0, next0);
    }

    /** A repeat of the previous length, or of length 0. */
    method RepeatedLength(e: Entry, ghost given0: seq<byte>, ghost next0: nat) returns (leave: bool)
      requires Matches(st, abs) && st.mode.CODELENS? && st.have < st.nlen + st.ndist && GoodState(abs)
      requires r.Valid() && r.Read(given0, next0) && |r.given| - |given0| == r.next - next0 && given0 <= r.given
      requires Tight(given0, abs) && abs.pos == r.Pos() && r.bits <= 24
      requires JustEnough(given0, r.given, abs.pos, abs.mode.cl)
      requires e.bits <= r.bits && e.bits <= 15
      requires DecodeLength(r.Stream(), r.Pos(), abs.mode.cl) == Symbol(e.val, e.bits)
      requires 16 <= e.val <= 18
      modifies r`hold, r`bits, r`next, r`given, `st, `abs
      ensures Inv() && Moved(given0, next0, old(abs)) && abs.out == old(abs).out && r.Valid() && r.Pos() >= old(r.Pos())
      ensures st.nlen == old(st.nlen) && st.ndist == old(st.ndist)
      ensures leave ==> Starved() && st == old(st)
      ensures !leave ==> st.mode.BAD? || (st.mode.CODELENS? && st.have > old(st.have))
    {
      hide BitsOk, Moved, Starved, Tight, Needed, GoodState, Goes, Matches, Num, Reach, Align, Next, Holds,
           BytesBits, Low, Shr, Pow2, FixedCodes, TablesFor, Decode, DecodeLength, Acceptable, IsTable, NoLonger,
           ValidLens;
      Kind();
      LengthsAgree();
      ghost var given1, next1 := r.given, r.next;
      var k := RepeatBits(e.val);
      var ok := r.NeedBits(e.bits + k);
      ReadTwice(given0, next0, given1, next1);
      LengthNeeded(given0, given1, r.given, abs, e.val, e.bits, k);
      DecodeAgain(given1, r.given, abs);
      if !ok {
        LengthShort(r.Stream(), abs);
        Waits(given0, next0);
        return true;
      }
      RepeatBitsHeld(e, k, given0, next0);
      leave := false;
    }

    /** The symbol and its extra bits are held. */
    method RepeatBitsHeld(e: Entry, k: nat, ghost given0: seq<byte>, ghost next0: nat)
      requires HasRead(given0, next0) && st.mode.CODELENS? && st.have < st.nlen + st.ndist && r.bits <= 8 * |r.given|
      requires 16 <= e.val <= 18 && k == RepeatBits(e.val) && e.bits + k <= r.bits
      requires DecodeLength(r.Stream(), r.Pos(), abs.mode.cl) == Symbol(e.val, e.bits)
      modifies r`hold, r`bits, `st, `abs
      ensures Inv() && Moved(given0, next0, old(abs)) && abs.out == old(abs).out && r.Valid() && old(r.Valid())
      ensures r.Pos() >= old(r.Pos())
      ensures st.nlen == old(st.nlen) && st.ndist == old(st.ndist)
      ensures st.mode.BAD? || (st.mode.CODELENS? && st.have > old(st.have))
    {
      hide BitsOk, Moved, Starved, Tight, Needed, GoodState, Goes, Matches, Num, Reach, Align, Next, Holds,
           BytesBits, Low, Shr, Pow2, FixedCodes, TablesFor, Decode, DecodeLength, Acceptable, IsTable, NoLonger,
           ValidLens, Means, JustEnough;
      Kind();
      LengthsAgree();
      r.DropBits(e.bits);
      if e.val == 16 && st.have == 0 {
        ghost var b := NoPreviousGoes(r.Stream(), abs, st, e.bits);
        st := st.(mode := BAD);
        Step(b, given0, next0);
        return;
      }
      var len := if e.val == 16 then st.lens[st.have - 1] else 0;
      var more := r.GetBits(k);
      var copy := RepeatBase(e.val) + more;
      var lens, have := st.lens, st.have;
      if st.have + copy <= st.nlen + st.ndist {
        lens, have := RepeatLen(st.lens, st.have, len, copy);
      }
      ghost var b := RepeatGoes(r.Stream(), abs, st, e.val, e.bits, len, copy, lens);
      if st.have + copy > st.nlen + st.ndist {
        st := st.(mode := BAD);
      } else {
        st := st.(lens := lens, have := have);
      }
      Step(b, given0, next0);
    }

    /** One symbol of the code length code, with its extra bits. */
    method OneLength() returns (leave: bool)
      requires Inv() && st.mode.CODELENS? && st.have < st.nlen + st.ndist
      modifies r`hold, r`bits, r`next, r`given, `st, `abs
      ensures Inv() && Moved(old(r.given), old(r.next), old(abs)) && abs.out == old(abs).out
      ensures leave ==> Starved() && st == old(st)
      ensures r.Valid() && old(r.Valid()) && r.Pos() >= old(r.Pos()) && st.nlen == old(st.nlen)
      ensures st.ndist == old(st.ndist)
      ensures !leave ==> st.mode.BAD? || (st.mode.CODELENS? && st.have > old(st.have))
    {
      hide BitsOk, Moved, Starved, Tight, Needed, GoodState, Goes, Matches, Num, Reach, Align, Next, Holds,
           BytesBits, Low, Shr, Pow2, FixedCodes, TablesFor, Decode, DecodeLength, Acceptable, IsTable, NoLonger,
           ValidLens;
      Opened();
      Kind();
      LengthsAgree();
      ghost var given0, next0, pos, cl := r.given, r.next, r.Pos(), abs.mode.cl;
      var ok, e := GetLengthEntry(r, st.lencode, st.lenbits, cl);
      ReadingParts(given0, next0, pos, cl);
      if !ok {
        JustIsNeeded(given0, r.given, abs);
        ShortIsShort(r.Stream(), abs);
        Waits(given0, next0);
        return true;
      }
      if e.val < 16 {
        PlainLength(e, given0, next0);
        leave := false;
      } else {
        leave := RepeatedLength(e, given0, next0);
      }
    }

    lemma ReadTwice(given0: seq<byte>, next0: nat, given1: seq<byte>, next1: nat)
      requires next0 <= next1 <= r.next <= |r.input| && given1 == given0 + r.input[next0..next1]
      requires r.Read(given1, next1)
      ensures r.Read(given0, next0) && given0 <= given1 <= r.given && |r.given| - |given0| == r.next - next0
    {
      assert r.input[next0..next1] + r.input[next1..r.next] == r.input[next0..r.next];
    }

    /** CODELENS: the lengths of both codes, and their tables. */
    method DoCodeLens() returns (leave: bool)
      requires Inv() && st.mode.CODELENS?
      modifies r`hold, r`bits, r`next, r`given, `st, `abs
      ensures Inv() && Moved(old(r.given), old(r.next), old(abs)) && abs.out == old(abs).out
      ensures leave ==> Starved()
      ensures !st.mode.HEAD? && !st.mode.DONE? && !InPair(st.mode)
      ensures !leave ==> r.Valid() && old(r.Valid()) && r.Pos() >= old(r.Pos()) && Rank(st.mode) < old(Rank(st.mode))
    {
      hide BitsOk, Moved, Starved, Tight, Needed, GoodState, Goes, Matches, Num, Reach, Align, Next, Holds,
           BytesBits, Low, Shr, Pow2, FixedCodes, TablesFor, Decode, DecodeLength, Acceptable, IsTable, NoLonger,
           ValidLens;
      Opened();
      LengthsAgree();
      MovedNot();
      ghost var a0, given0, next0 := abs, r.given, r.next;
      while st.have < st.nlen + st.ndist
        invariant Inv() && st.mode.CODELENS? && Moved(given0, next0, a0) && abs.out == a0.out
        invariant r.Valid() && r.Pos() >= old(r.Pos()) && GoodState(a0)
        decreases st.nlen + st.ndist - st.have
      {
        ghost var a1, given1, next1 := abs, r.given, r.next;
        MovedParts(given0, next0, a0);
        leave := OneLength();
        MovedOn(given0, next0, a0, given1, next1, a1);
        if leave {
          return;
        }
        if st.mode.BAD? {
          return;
        }
      }
      Opened();
      LengthsAgree();
      leave := BuildCodes(a0, given0, next0);
    }

    /** The tables of both codes. */
    method BuildCodes(ghost a0: State, ghost given0: seq<byte>, ghost next0: nat) returns (leave: bool)
      requires Inv() && st.mode.CODELENS? && st.have == st.nlen + st.ndist && GoodState(a0) && Moved(given0, next0, a0)
      modifies `st, `abs
      ensures Inv() && !leave && Moved(given0, next0, a0) && abs.out == old(abs).out && (st.mode.LEN? || st.mode.BAD?)
    {
      hide BitsOk, Moved, Starved, Tight, Needed, GoodState, Goes, Matches, Num, Reach, Align, Next, Holds,
           BytesBits, Low, Shr, Pow2, FixedCodes, TablesFor, Decode, DecodeLength, Acceptable, IsTable, NoLonger,
           ValidLens;
      Opened();
      Kind();
      LengthsAgree();
      ghost var a1, given1, next1 := abs, r.given, r.next;
      MovedParts(given0, next0, a0);
      PrefixValid(st.lens, st.nlen);
      PrefixValid(st.lens, st.have);
      PrefixValid(st.lens[..st.have], st.nlen);
      var ll, dl := st.lens[..st.nlen], st.lens[..st.have][st.nlen..];
      assert dl == st.lens[st.nlen..st.have];
      var lret, lt, lb := InflateTable(LENS, ll, 9);
      var dret, dt, db := -1, st.distcode, st.distbits;
      ghost var st0 := st;
      st := st.(lencode := lt, lenbits := lb);
      if lret != 0 {
        st := st.(mode := BAD);
      } else {
        dret, dt, db := InflateTable(DISTS, dl, 6);
        st := st.(distcode := dt, distbits := db);
        if dret != 0 {
          st := st.(mode := BAD);
        } else {
          st := st.(mode := LEN);
        }
      }
      ghost var b := CodesBuilt(r.Stream(), abs, st0, lt, lb, dt, db, lret == 0, dret == 0);
      NothingNeeded(given1, abs);
      NothingRead(given1, r.input, next1);
      Step(b, given1, next1);
      MovedOn(given0, next0, a0, given1, next1, a1);
      leave := false;
    }

    lemma TablesAgree()
      requires Matches(st, abs) && GoodState(abs) && (st.mode.LEN? || st.mode.DIST?)
      ensures var c := CodesOf(abs.mode);
              && |c.ll| <= 288 && |c.dl| <= 32 && ValidLens(c.ll) && ValidLens(c.dl)
              && Acceptable(LENS, c.ll) && Acceptable(DISTS, c.dl)
              && IsTable(st.lencode, st.lenbits, LENS, c.ll) && IsTable(st.distcode, st.distbits, DISTS, c.dl)
    {
    }

    /** LEN: a literal/length code. */
    method DoLen() returns (leave: bool)
      requires Inv() && st.mode.LEN?
      modifies r`hold, r`bits, r`next, r`given, `st, `abs
      ensures Inv() && Moved(old(r.given), old(r.next), old(abs)) && abs.out == old(abs).out
      ensures leave ==> Starved()
      ensures !st.mode.HEAD? && !st.mode.DONE?
      ensures !leave ==> r.Valid() && old(r.Valid()) && r.Pos() > old(r.Pos())
    {
      hide BitsOk, Moved, Starved, Tight, Needed, GoodState, Goes, Matches, Num, Reach, Align, Next, Holds,
           BytesBits, Low, Shr, Pow2, FixedCodes, TablesFor, Decode, DecodeLength, Acceptable, IsTable, NoLonger,
           ValidLens, Means, JustEnough;
      Opened();
      Kind();
      TablesAgree();
      ghost var given0, next0, pos, ll := r.given, r.next, r.Pos(), CodesOf(abs.mode).ll;
      var ok, e := GetEntry(r, st.lencode, st.lenbits, LENS, ll);
      SymbolNeeded(given0, r.given, abs);
      if !ok {
        NoSymbolYet(r.Stream(), abs);
        Waits(given0, next0);
        return true;
      }
      ghost var b := LenGoes(r.Stream(), abs, st, e, r.Pos() - pos);
      st := st.(length := e.val);
      if e.op == 0 {
        st := st.(mode := LIT);
      } else if e.op / 32 % 2 == 1 {
        st := st.(mode := TYPE);
      } else if e.op / 64 % 2 == 1 {
        st := st.(mode := BAD);
      } else {
        st := st.(extra := e.op % 16, mode := LENEXT);
      }
      Step(b, given0, next0);
      leave := false;
    }

    /** LENEXT: the extra bits of a length. */
    method DoLenExt() returns (leave: bool)
      requires Inv() && st.mode.LENEXT?
      modifies r`hold, r`bits, r`next, r`given, `st, `abs
      ensures Inv() && Moved(old(r.given), old(r.next), old(abs)) && abs.out == old(abs).out
      ensures leave ==> Starved()
      ensures !st.mode.HEAD? && !st.mode.DONE?
      ensures !leave ==> r.Valid() && old(r.Valid()) && r.Pos() >= old(r.Pos()) && Rank(st.mode) < old(Rank(st.mode))
    {
      hide BitsOk, Moved, Starved, Tight, Needed, GoodState, Goes, Matches, Num, Reach, Align, Next, Holds,
           BytesBits, Low, Shr, Pow2, FixedCodes, TablesFor, Decode, DecodeLength, Acceptable, IsTable, NoLonger,
           ValidLens, Means, JustEnough;
      Opened();
      Kind();
      ExtraAgrees();
      ghost var given0, next0 := r.given, r.next;
      NothingNeeded(given0, abs);
      NothingRead(given0, r.input, next0);
      var length := st.length;
      if st.extra != 0 {
        var ok := Need(st.extra);
        if !ok {
          return true;
        }
      }
      ghost var b := LenExtGoes(r.Stream(), abs, st);
      if st.extra != 0 {
        var more := r.GetBits(st.extra);
        length := length + more;
      }
      st := st.(length := length, mode := DIST);
      Step(b, given0, next0);
      leave := false;
    }

    lemma ExtraAgrees()
      requires Matches(st, abs) && GoodState(abs) && (st.mode.LENEXT? || st.mode.DISTEXT?)
      ensures NeedOf(abs) == st.extra <= 13
      ensures st.mode.LENEXT? ==> abs.mode.LenExt? && abs.mode.base == st.length && abs.mode.extra == st.extra
      ensures st.mode.DISTEXT? ==> abs.mode.DistExt? && abs.mode.base == st.offset && abs.mode.extra == st.extra
      ensures st.mode.DISTEXT? ==> st.offset + Pow2(st.extra) <= 32769
    {
    }

    /** DIST: a distance code. */
    method DoDist() returns (leave: bool)
      requires Inv() && st.mode.DIST?
      modifies r`hold, r`bits, r`next, r`given, `st, `abs
      ensures Inv() && Moved(old(r.given), old(r.next), old(abs)) && abs.out == old(abs).out
      ensures leave ==> Starved()
      ensures !st.mode.HEAD? && !st.mode.DONE?
      ensures !leave ==> r.Valid() && old(r.Valid()) && r.Pos() > old(r.Pos())
    {
      hide BitsOk, Moved, Starved, Tight, Needed, GoodState, Goes, Matches, Num, Reach, Align, Next, Holds,
           BytesBits, Low, Shr, Pow2, FixedCodes, TablesFor, Decode, DecodeLength, Acceptable, IsTable, NoLonger,
           ValidLens, Means, JustEnough;
      Opened();
      Kind();
      TablesAgree();
      ghost var given0, next0, pos, dl := r.given, r.next, r.Pos(), CodesOf(abs.mode).dl;
      var ok, e := GetEntry(r, st.distcode, st.distbits, DISTS, dl);
      SymbolNeeded(given0, r.given, abs);
      if !ok {
        NoSymbolYet(r.Stream(), abs);
        Waits(given0, next0);
        return true;
      }
      ghost var b := DistGoes(r.Stream(), abs, st, e, r.Pos() - pos);
      if e.op / 64 % 2 == 1 {
        st := st.(mode := BAD);
      } else {
        st := st.(offset := e.val, extra := e.op % 16, mode := DISTEXT);
      }
      Step(b, given0, next0);
      leave := false;
    }

    /** The distance in the stream, behind the distance code. */
    ghost predicate Offset(B: Bits, offset: nat)
      reads `abs
    {
      && abs.mode.DistExt? && abs.pos + abs.mode.extra <= |B|
      && offset == abs.mode.base + Num(B, abs.pos, abs.mode.extra) <= 32768
    }

    /**
     The extra bits of a distance, and the check that it does not reach back more than limit bytes; when it does, the
     machine has still to say what becomes of it.
     */
    method DoDistExt(limit: nat) returns (leave: bool, far: bool, ghost offset: nat)
      requires Inv() && st.mode.DISTEXT? && (limit <= |abs.out| || |abs.out| >= 32768)
      modifies r`hold, r`bits, r`next, r`given, `st, `abs
      ensures leave ==> !far
      ensures !far ==> Inv() && Moved(old(r.given), old(r.next), old(abs)) && abs.out == old(abs).out
      ensures leave ==> Starved()
      ensures !far ==> !st.mode.HEAD? && !st.mode.DONE?
      ensures !leave && !far ==> r.Valid() && old(r.Valid()) && r.Pos() >= old(r.Pos()) && st.mode.MATCH?
      ensures !leave && !far ==> st.offset <= limit
      ensures far ==> Rejecting(old(r.given), old(r.next), limit, offset) && old(r.Valid()) && r.Pos() >= old(r.Pos())
      ensures far ==> abs == old(abs)
    {
      hide BitsOk, Moved, Starved, Tight, Needed, GoodState, Goes, Matches, Num, Reach, Align, Next, Holds,
           BytesBits, Low, Shr, Pow2, FixedCodes, TablesFor, Decode, DecodeLength, Acceptable, IsTable, NoLonger,
           ValidLens, Means, JustEnough;
      Opened();
      Kind();
      ExtraAgrees();
      ghost var given0, next0 := r.given, r.next;
      NothingNeeded(given0, abs);
      NothingRead(given0, r.input, next0);
      offset := 0;
      if st.extra != 0 {
        var ok := Need(st.extra);
        if !ok {
          return true, false, 0;
        }
      }
      far, offset := DistanceBits(limit, given0, next0);
      leave := false;
    }

    /** A distance that was found to reach back too far: its bits have been consumed. */
    ghost predicate Rejecting(given0: seq<byte>, next0: nat, limit: nat, offset: nat)
      reads this, r
    {
      && st.mode.BAD? && Offset(r.Stream(), offset) && offset > limit && st.last == abs.last
      && |st.lens| == LENS_SIZE && ValidLens(st.lens) && st.have <= |st.lens|
      && r.Valid() && r.Read(given0, next0) && |r.given| - |given0| == r.next - next0 && given0 <= r.given
      && GoodState(abs) && Tight(given0, abs) && Needed(given0, r.given, abs)
      && r.Pos() == abs.pos + abs.mode.extra
    }

    /** The extra bits of the distance are held. */
    method DistanceBits(limit: nat, ghost given0: seq<byte>, ghost next0: nat) returns (far: bool, ghost offset0: nat)
      requires HasRead(given0, next0) && st.mode.DISTEXT? && st.extra <= r.bits <= 8 * |r.given|
      requires limit <= |abs.out| || |abs.out| >= 32768
      modifies r`hold, r`bits, `st, `abs
      ensures !far ==> Inv() && Moved(given0, next0, old(abs)) && abs.out == old(abs).out && st.mode.MATCH?
      ensures !far ==> r.Valid() && st.offset <= limit
      ensures far ==> Rejecting(given0, next0, limit, offset0) && abs == old(abs)
      ensures r.Valid() && old(r.Valid()) && r.Pos() >= old(r.Pos())
    {
      hide BitsOk, Moved, Starved, Tight, Needed, GoodState, Goes, Matches, Num, Reach, Align, Next, Holds,
           BytesBits, Low, Shr, Pow2, FixedCodes, TablesFor, Decode, DecodeLength, Acceptable, IsTable, NoLonger,
           ValidLens, Means, JustEnough;
      Kind();
      ExtraAgrees();
      LensAgree();
      var offset := st.offset;
      NumBound(r.Stream(), abs.pos, st.extra);
      ghost var b := DistExtGoes(r.Stream(), abs, st);
      if st.extra != 0 {
        var more := r.GetBits(st.extra);
        offset := offset + more;
      }
      offset0 := offset;
      NoBitsNum(r.Stream(), abs.pos);
      st := st.(offset := offset);
      far := offset > limit;
      if far {
        st := st.(mode := BAD);
      } else {
        st := st.(mode := MATCH);
        Step(b, given0, next0);
      }
    }

    lemma LensAgree()
      requires Matches(st, abs)
      ensures st.have <= |st.lens| && |st.lens| == LENS_SIZE && ValidLens(st.lens) && st.last == abs.last
    {
      hide TablesFor;
    }

    /** The machine rejects the distance as well. */
    ghost method Reject(given0: seq<byte>, next0: nat, limit: nat, offset: nat)
      requires Rejecting(given0, next0, limit, offset) && offset > |abs.out|
      modifies `abs
      ensures Inv() && Moved(given0, next0, old(abs)) && abs.out == old(abs).out && r.Valid() && old(r.Valid())
    {
      hide Tight, Needed, GoodState, Num, Reach, Align, Holds, BytesBits;
      ghost var b := abs.(mode := Bad, pos := abs.pos + abs.mode.extra);
      assert Matches(st, b);
      assert Next(r.Stream(), abs) == Some(b);
      Step(b, given0, next0);
    }

    // ---------- inflate_fast ----------

    /** The run so far, over the consumed bits only. */
    ghost predicate Fast(given0: seq<byte>, next0: nat, a0: State)
      reads `abs, r
    {
      && r.Valid() && r.Read(given0, next0) && |r.given| - |given0| == r.next - next0 && given0 <= r.given
      && GoodState(abs) && GoodState(a0) && a0.pos <= abs.pos <= r.Pos() && Reach(r.Stream()[..abs.pos], a0, abs)
    }

    ghost predicate FastTables(c: Codes)
      reads `st
    {
      && |c.ll| <= 288 && |c.dl| <= 32 && ValidLens(c.ll) && ValidLens(c.dl)
      && Acceptable(LENS, c.ll) && Acceptable(DISTS, c.dl)
      && IsTable(st.lencode, st.lenbits, LENS, c.ll) && IsTable(st.distcode, st.distbits, DISTS, c.dl)
    }

    lemma FastParts(given0: seq<byte>, next0: nat, a0: State)
      requires Fast(given0, next0, a0)
      ensures r.Valid() && GoodState(abs) && GoodState(a0) && a0.pos <= abs.pos <= r.Pos()
      ensures next0 <= r.next <= |r.input|
      ensures |r.given| - |given0| == r.next - next0 && |r.given| >= |given0| && r.Pos() <= |r.Stream()|
    {
    }

    method FastPull(ghost given0: seq<byte>, ghost next0: nat, ghost a0: State)
      requires Fast(given0, next0, a0) && r.next < |r.input| && r.bits <= 24
      modifies r`hold, r`bits, r`next, r`given
      ensures Fast(given0, next0, a0) && r.Valid() && r.bits == old(r.bits) + 8 && r.next == old(r.next) + 1
      ensures old(r.Valid()) && r.Pos() == old(r.Pos())
    {
      hide Reach, GoodState, Holds;
      ghost var given, k := r.given, r.next;
      OneRead(given0, r.input, next0, r.next);
      r.PullByte();
      BytesBitsAppend(given, [r.input[k]]);
      assert BytesBits(r.given)[..abs.pos] == BytesBits(given)[..abs.pos];
    }

    /** At least 15 bits, enough for any code. */
    method Refill(ghost given0: seq<byte>, ghost next0: nat, ghost a0: State)
      requires Fast(given0, next0, a0) && (r.bits < 15 ==> r.next + 2 <= |r.input|)
      modifies r`hold, r`bits, r`next, r`given
      ensures Fast(given0, next0, a0) && r.Valid() && r.bits >= 15
      ensures old(r.Valid()) && r.Pos() == old(r.Pos())
    {
      hide Fast;
      FastParts(given0, next0, a0);
      if r.bits < 15 {
        FastPull(given0, next0, a0);
        FastPull(given0, next0, a0);
      }
    }

    /** The machine goes one step on, to where the reader stands. */
    ghost method FastGo(b: State, given0: seq<byte>, next0: nat, a0: State)
      requires Fast(given0, next0, a0) && Decoding(abs.mode) && Next(r.Stream(), abs) == Some(b) && b.pos <= r.Pos()
      requires b.out == abs.out
      modifies `abs
      ensures abs == b && Fast(given0, next0, a0)
    {
      hide Reach, GoodState, Next, Holds;
      OutStep(r.Stream(), abs, b);
      FastFurther(r.Stream(), a0, abs, b);
      abs := b;
    }

    /** Drops bits that the machine is about to consume. */
    method FastBits(n: nat, ghost given0: seq<byte>, ghost next0: nat, ghost a0: State) returns (v: nat)
      requires Fast(given0, next0, a0) && r.Valid() && n <= r.bits
      modifies r`hold, r`bits
      ensures Fast(given0, next0, a0) && r.Valid() && r.Pos() == old(r.Pos()) + n && r.bits == old(r.bits) - n
      ensures old(r.Valid()) && old(r.Pos()) + n <= |r.Stream()| && v == Num(r.Stream(), old(r.Pos()), n)
    {
      hide Reach, GoodState, Holds, Num;
      v := r.GetBits(n);
    }

    method FastLookup(t: seq<Entry>, root: nat, ghost kind: Kind, ghost lens: seq<nat>, ghost given0: seq<byte>,
                      ghost next0: nat, ghost a0: State)
      returns (e: Entry)
      requires Fast(given0, next0, a0) && r.Valid() && 15 <= r.bits && ValidLens(lens) && |lens| <= MaxSymbols(kind)
      requires Acceptable(kind, lens) && IsTable(t, root, kind, lens)
      modifies r`hold, r`bits
      ensures Fast(given0, next0, a0) && r.Valid() && old(r.Valid()) && old(r.Pos()) <= r.Pos() <= old(r.Pos()) + 15
      ensures Means(Decode(r.Stream(), old(r.Pos()), lens), kind, lens, e, r.Pos() - old(r.Pos()))
    {
      hide Reach, GoodState, Holds, Acceptable, IsTable, Means, Decode, ValidLens;
      e := FastEntry(r, t, root, kind, lens);
    }

    /** The length of a match: its base and its extra bits. */
    method FastLength(e: Entry, ghost c: Codes, ghost given0: seq<byte>, ghost next0: nat, ghost a0: State)
      returns (len: nat)
      requires Fast(given0, next0, a0) && abs.mode == LenExt(c, e.val, e.op % 16) && r.Valid() && abs.pos == r.Pos()
      requires r.bits < 5 ==> r.next < |r.input|
      modifies r`hold, r`bits, r`next, r`given, `abs
      ensures Fast(given0, next0, a0) && r.Valid() && abs == old(abs).(mode := Dist(c, len), pos := r.Pos())
      ensures old(r.Valid()) && old(r.Pos()) <= r.Pos() <= old(r.Pos()) + 5
    {
      hide BitsOk, Moved, Starved, Tight, Needed, GoodState, Goes, Matches, Num, Reach, Align, Next, Holds,
           BytesBits, Low, Shr, Pow2, FixedCodes, TablesFor, Decode, DecodeLength, Acceptable, IsTable, NoLonger,
           ValidLens, Means, JustEnough, Fast;
      FastParts(given0, next0, a0);
      FastBounds(abs);
      len := e.val;
      var op := e.op % 16;
      ghost var pos := r.Pos();
      if op != 0 {
        if r.bits < op {
          FastPull(given0, next0, a0);
        }
        var more := FastBits(op, given0, next0, a0);
        len := len + more;
      }
      FastParts(given0, next0, a0);
      ghost var b := FastLenExt(r.Stream(), abs);
      FastGo(b, given0, next0, a0);
    }

    /** Between two symbols of inflate_fast. */
    ghost predicate FastIn(c: Codes, given0: seq<byte>, next0: nat, a0: State)
      reads this, r
    {
      Fast(given0, next0, a0) && abs.mode == Len(c) && abs.pos == r.Pos() && abs.last == a0.last && FastTables(c)
    }

    /** Behind the last symbol. */
    ghost predicate FastOut(given0: seq<byte>, next0: nat, a0: State)
      reads this, r
    {
      Fast(given0, next0, a0) && (abs.mode.Type? || abs.mode.Bad?) && abs.pos == r.Pos() && abs.last == a0.last
    }

    /** The code of the next symbol. */
    method FastSymbol(ghost c: Codes, ghost given0: seq<byte>, ghost next0: nat, ghost a0: State) returns (e: Entry)
      requires FastIn(c, given0, next0, a0) && |r.input| - r.next >= 6
      modifies r`hold, r`bits, r`next, r`given, `abs
      ensures Fast(given0, next0, a0) && r.Valid() && old(r.Valid()) && abs.pos == r.Pos() > old(r.Pos())
      ensures abs.out == old(abs).out && abs.last == old(abs).last && (e.op == 0 ==> e.val < 256)
      ensures abs.toks == old(abs).toks
      ensures abs.mode == if e.op == 0 then Lit(c, e.val)
                          else if e.op / 16 % 2 == 1 then LenExt(c, e.val, e.op % 16)
                          else if e.op / 32 % 2 == 1 then Type else Bad
      ensures 8 * (|r.input| - r.next) + r.bits >= 33
    {
      hide BitsOk, Moved, Starved, Tight, Needed, GoodState, Goes, Matches, Num, Reach, Align, Next, Holds,
           BytesBits, Low, Shr, Pow2, FixedCodes, TablesFor, Decode, DecodeLength, Acceptable, IsTable, NoLonger,
           ValidLens, Means, JustEnough, Fast;
      FastParts(given0, next0, a0);
      Refill(given0, next0, a0);
      FastParts(given0, next0, a0);
      ghost var pos := r.Pos();
      e := FastLookup(st.lencode, st.lenbits, LENS, c.ll, given0, next0, a0);
      FastParts(given0, next0, a0);
      ghost var b := FastLenNext(r.Stream(), abs, e, r.Pos() - pos);
      FastGo(b, given0, next0, a0);
    }

    /** The length of a match and the code of its distance. */
    method FastDistCode(e0: Entry, ghost c: Codes, ghost given0: seq<byte>, ghost next0: nat, ghost a0: State)
      returns (len: nat, e: Entry)
      requires Fast(given0, next0, a0) && abs.mode == LenExt(c, e0.val, e0.op % 16) && r.Valid() && abs.pos == r.Pos()
      requires FastTables(c) && 8 * (|r.input| - r.next) + r.bits >= 33
      modifies r`hold, r`bits, r`next, r`given, `abs
      ensures Fast(given0, next0, a0) && r.Valid() && old(r.Valid()) && abs.pos == r.Pos() >= old(r.Pos())
      ensures abs.out == old(abs).out && abs.last == old(abs).last && 3 <= len <= 258 && abs.toks == old(abs).toks
      ensures abs.mode == if e.op / 16 % 2 == 1 then DistExt(c, len, e.val, e.op % 16) else Bad
      ensures r.bits < 13 ==> r.next + (if r.bits < 5 then 2 else 1) <= |r.input|
    {
      hide BitsOk, Moved, Starved, Tight, Needed, GoodState, Goes, Matches, Num, Reach, Align, Next, Holds,
           BytesBits, Low, Shr, Pow2, FixedCodes, TablesFor, Decode, DecodeLength, Acceptable, IsTable, NoLonger,
           ValidLens, Means, JustEnough, Fast;
      ghost var total := 8 * |r.input| + 8 * (|given0| - next0);
      FastParts(given0, next0, a0);
      len := FastLength(e0, c, given0, next0, a0);
      FastParts(given0, next0, a0);
      FastBounds(abs);
      Refill(given0, next0, a0);
      FastParts(given0, next0, a0);
      ghost var pos := r.Pos();
      e := FastLookup(st.distcode, st.distbits, DISTS, c.dl, given0, next0, a0);
      FastParts(given0, next0, a0);
      ghost var b := FastDistNext(r.Stream(), abs, e, r.Pos() - pos);
      FastGo(b, given0, next0, a0);
    }

    /** The distance: its base and its extra bits. */
    method FastOffset(e: Entry, len: nat, ghost c: Codes, ghost given0: seq<byte>, ghost next0: nat, ghost a0: State)
      returns (dist: nat)
      requires Fast(given0, next0, a0) && abs.mode == DistExt(c, len, e.val, e.op % 16) && r.Valid()
      requires abs.pos == r.Pos()
      requires r.bits < 13 ==> r.next + (if r.bits < 5 then 2 else 1) <= |r.input|
      modifies r`hold, r`bits, r`next, r`given
      ensures Fast(given0, next0, a0) && r.Valid() && r.Pos() == abs.pos + abs.mode.extra
      ensures 1 <= dist && Offset(r.Stream(), dist)
    {
      hide BitsOk, Moved, Starved, Tight, Needed, GoodState, Goes, Matches, Num, Reach, Align, Next, Holds,
           BytesBits, Low, Shr, Pow2, FixedCodes, TablesFor, Decode, DecodeLength, Acceptable, IsTable, NoLonger,
           ValidLens, Means, JustEnough, Fast;
      FastParts(given0, next0, a0);
      FastBounds(abs);
      var op := e.op % 16;
      if r.bits < op {
        FastPull(given0, next0, a0);
        if r.bits < op {
          FastPull(given0, next0, a0);
        }
      }
      var more := FastBits(op, given0, next0, a0);
      FastParts(given0, next0, a0);
      NumBound(r.Stream(), abs.pos, op);
      dist := e.val + more;
    }

    /** What the machine says of the distance. */
    ghost method FastDecide(dist: nat, given0: seq<byte>, next0: nat, a0: State)
      requires Fast(given0, next0, a0) && r.Valid() && Offset(r.Stream(), dist) && r.Pos() == abs.pos + abs.mode.extra
      modifies `abs
      ensures Fast(given0, next0, a0) && r.Valid() && abs.pos == r.Pos() && abs.last == old(abs).last
      ensures abs.out == old(abs).out
      ensures old(abs).mode.DistExt?
      ensures abs.mode == if dist > |abs.out| then Bad else Match(old(abs).mode.c, old(abs).mode.length, dist)
      ensures dist <= |abs.out| ==> abs.toks == old(abs).toks + [Copy(old(abs).mode.length, dist)]
    {
      hide Fast, Num, Next;
      ghost var b := FastDistExt(r.Stream(), abs);
      FastGo(b, given0, next0, a0);
    }

    /** inflate_fast may start: the run so far is empty. */
    lemma FastStarts(c: Codes)
      requires Inv() && st.mode.LEN? && c == CodesOf(abs.mode)
      ensures FastIn(c, r.given, r.next, abs)
    {
      hide IsTable, Reach, ValidLens, Acceptable;
      Kind();
      TablesAgree();
      NothingRead(r.given, r.input, r.next);
      ReachSelf(r.Stream()[..abs.pos], abs);
    }

    lemma FastStops(c: Codes, given0: seq<byte>, next0: nat, a0: State, st0: Ctl)
      requires Matches(st0, a0) && st0.mode.LEN? && a0.mode == Len(c)
      requires if abs.mode.Len? then FastIn(c, given0, next0, a0) && st == st0
               else FastOut(given0, next0, a0) && st == st0.(mode := if abs.mode.Type? then TYPE else BAD)
      ensures Fast(given0, next0, a0) && Matches(st, abs) && r.Valid() && abs.pos == r.Pos()
      ensures abs.mode.Len? || abs.mode.Type? || abs.mode.Bad?
    {
      hide Fast, Matches, FastTables;
      assert r.Valid() by { FastParts(given0, next0, a0); }
      MatchesEnd(st0, a0, abs);
    }

    /** Unused bytes go back to the input; never more than inflate_fast has taken. */
    method FastGiveBack(ghost given0: seq<byte>, ghost next0: nat, ghost a0: State)
      requires Fast(given0, next0, a0) && r.Valid() && abs.pos == r.Pos() && a0.pos < abs.pos && Tight(given0, a0)
      requires (abs.mode.Len? || abs.mode.Type? || abs.mode.Bad?) && Matches(st, abs)
      modifies r`hold, r`bits, r`next, r`given
      ensures Inv() && Moved(given0, next0, a0) && r.bits < 8 && r.Valid() && r.Pos() == old(r.Pos()) && old(r.Valid())
    {
      hide GoodState, Reach, Next, Holds, Matches;
      NotTooFar(given0, r.given, a0, abs);
      ghost var given := r.given;
      r.GiveBack();
      GivenBack(given0, given, r.input, next0, r.next, |given| - |r.given|);
      ghost var k := abs.pos;
      assert BytesBits(given)[..k] == BytesBits(r.given)[..k] by { PrefixBits(given, r.given); }
      assert r.Stream() == r.Stream()[..k] + r.Stream()[k..];
      ReachLonger(r.Stream()[..k], r.Stream()[k..], a0, abs);
    }

    /** A distance was too far while inflate_fast was at work: the bytes it did not need go back to the input. */
    method FastLeave(ghost dist: nat, ghost given0: seq<byte>, ghost next0: nat, ghost a0: State)
      requires Fast(given0, next0, a0) && r.Valid() && a0.pos < abs.pos && Tight(given0, a0)
      requires Offset(r.Stream(), dist) && r.Pos() == abs.pos + abs.mode.extra
      modifies r`hold, r`bits, r`next, r`given
      ensures Moved(given0, next0, a0) && r.Valid() && r.bits < 8 && Offset(BytesBits(r.given), dist)
    {
      hide GoodState, Reach, Next, Holds, Num;
      NotTooFar(given0, r.given, a0, abs);
      ghost var given := r.given;
      r.GiveBack();
      GivenBack(given0, given, r.input, next0, r.next, |given| - |r.given|);
      ghost var k := abs.pos;
      PrefixBits(given, r.given);
      assert BytesBits(given)[..k] == BytesBits(r.given)[..k];
      assert r.Stream() == r.Stream()[..k] + r.Stream()[k..];
      ReachLonger(r.Stream()[..k], r.Stream()[k..], a0, abs);
      NumPrefix(BytesBits(given), BytesBits(r.given), abs.pos, abs.mode.extra);
    }

    lemma FastMore(go: bool, c: Codes, given0: seq<byte>, next0: nat, a0: State)
      requires if go then FastIn(c, given0, next0, a0) else FastOut(given0, next0, a0)
      ensures r.Valid() && |r.given| - |given0| == r.next - next0 && abs.pos == r.Pos()
      ensures go <==> abs.mode.Len?
    {
    }
  }

  lemma NoByteYet(B: Bits, a: State)
    requires a.mode.Copying? && a.mode.left > 0
    ensures a.pos + 8 > |B| ==> Next(B, a).None?
  {
  }

  lemma CopyNothing(h: seq<byte>, d: nat)
    requires 1 <= d <= |h|
    ensures CopyBytes(h, 0, d) == h
  {
  }

  lemma TakenAt(given: seq<byte>, data: seq<byte>)
    ensures At(BytesBits(given + data), 8 * |given|, BytesBits(data))
  {
    BytesBitsAppend(given, data);
    AtTheEnd(BytesBits(given), BytesBits(data));
  }

  lemma AtTheEnd(a: Bits, b: Bits)
    ensures At(a + b, |a|, b)
  {
  }

  lemma LitNext(B: Bits, a: State)
    requires a.mode.Lit?
    ensures Next(B, a) == Some(a.(mode := Len(a.mode.c), out := a.out + [a.mode.b],
             toks := a.toks + [Literal(a.mode.b)]))
  {
  }

  lemma GivenBack(given0: seq<byte>, given: seq<byte>, input: seq<byte>, n: nat, next: nat, k: nat)
    requires n <= next && next + k <= |input| && given == given0 + input[n..next + k] && k <= |given|
    ensures given[..|given| - k] == given0 + input[n..next] && given0 <= given[..|given| - k]
  {
  }

  lemma PrefixValid(lens: seq<nat>, n: nat)
    requires ValidLens(lens) && n <= |lens|
    ensures ValidLens(lens[..n]) && ValidLens(lens[n..])
  {
  }

  /** fixedtables: the tables of the fixed codes. */
  method FixedTables(st0: Ctl) returns (st: Ctl)
    ensures TablesFor(Len(FixedCodes()), st.lencode, st.lenbits, st.distcode, st.distbits)
    ensures st == st0.(lencode := st.lencode, lenbits := st.lenbits, distcode := st.distcode, distbits := st.distbits)
  {
    hide IsTable, Acceptable, FixedLens, FixedDists;
    FixedGood();
    var lret, lt, lb := InflateTable(LENS, FixedLens(), 9);
    var dret, dt, db := InflateTable(DISTS, FixedDists(), 5);
    st := st0.(lencode := lt, lenbits := lb, distcode := dt, distbits := db);
  }

  lemma NearEnd(pos: nat, total: nat)
    requires total % 8 == 0 && pos <= total && total - Align(pos) < 8
    ensures total - pos < 8
  {
  }

  lemma HighHalf(B: Bits, pos: nat, hold: nat, bits: nat)
    requires Holds(B, pos, hold, bits) && bits == 32
    ensures pos + 32 <= |B| && Shr(hold, 16) == Num(B, pos + 16, 16) < 0x10000
  {
    HoldsDrop(B, pos, hold, bits, 16);
    assert B[pos + 16..] == B[pos + 16..pos + 32];
    Powers();
  }

  lemma Aligned(pos: nat)
    ensures Align(Align(pos)) == Align(pos)
  {
  }

  lemma NumPrefix(B: Bits, B1: Bits, pos: nat, n: nat)
    requires |B1| <= |B| && B1 == B[..|B1|] && pos + n <= |B1|
    ensures Num(B1, pos, n) == Num(B, pos, n)
  {
    assert B1[pos..pos + n] == B[pos..pos + n];
  }
}
