/** inflate() (inflate.c) for raw streams with a 32K window. */
module Inflating {
  import opened Shift
  import opened Bits
  import opened Canonical
  import opened InfTreesSpec
  import opened InfTrees
  import opened Format
  import opened FormatFacts
  import opened BlockCode
  import opened BlockRoundTrip
  import opened BitReading
  import opened Lookup
  import opened Windows
  import opened InflateStates
  import opened Decoders

  /** The return codes Z_OK, Z_STREAM_END, Z_DATA_ERROR and Z_BUF_ERROR. */
  datatype Ret = Ok | StreamEnd | DataError | BufError

  /** The next step writes a byte of output. */
  predicate WantsRoom(a: State)
  {
    a.mode.Match? || a.mode.Lit? || (a.mode.Copying? && a.mode.left > 0)
  }

  class Inflater {
    /** The fields of the state but for the output, and the input. */
    const d: Decoder
    const win: Window
    /** The output of the current call: the first put bytes of outBuf. */
    var outBuf: array<byte>
    var put: nat
    /** The output before the current call; set once a stream has ended without a window. */
    ghost var hist: seq<byte>
    ghost var finished: bool

    /** The output of this call and, until the stream has ended, the window with the output before it. */
    ghost predicate OutOk()
      reads `outBuf, `put, d`abs, `hist, `finished, win, win.buf, outBuf
    {
      && outBuf != win.buf && put <= outBuf.Length && d.abs.out == hist + outBuf[..put]
      && (!finished ==> win.Keeps(hist) && (win.wsize == 0 ==> hist == []))
      && (finished ==> Final(d.abs) && win.wsize == 0)
    }

    ghost predicate Inv()
      reads this, d, d.r, win, win.buf, outBuf
    {
      OutOk() && d.Inv()
    }

    /** There is no room for the next byte of output. */
    ghost predicate Full()
      reads this, d
    {
      put == outBuf.Length && (d.st.mode.MATCH? || d.st.mode.LIT? || (d.st.mode.COPY? && d.st.length > 0))
    }

    constructor ()
      ensures AtRest() && fresh(d) && fresh(d.r) && fresh(win) && fresh(win.buf) && fresh(outBuf)
      ensures d.abs == START && d.r.given == []
    {
      var decoder := new Decoder();
      var window := new Window();
      d, win := decoder, window;
      outBuf := new byte[0];
      put := 0;
      hist, finished := [], false;
      new;
      ReachSelf(BytesBits([]), START);
    }

    lemma Opened()
      requires Inv()
      ensures d.r.Valid() && GoodState(d.abs) && d.BitsOk() && OutOk() && d.Inv() && Matches(d.st, d.abs)
      ensures finished ==> Final(d.abs)
      ensures d.abs.pos == if d.abs.mode.Stored? then Align(d.r.Pos()) else d.r.Pos()
      ensures !d.abs.mode.Bad? ==> d.r.bits <= 24 && Tight(d.r.given, d.abs)
      ensures d.abs.mode.Copying? ==> d.r.bits == 0
    {
      d.Opened();
    }

    /**
     The distance is checked against the window and the output of this call: together they reach back as far as all
     output, or 32K.
     */
    lemma FarEnough(offset: nat)
      requires OutOk() && !finished && offset <= 32768
      ensures offset > win.whave + put <==> offset > |d.abs.out|
    {
    }

    /** DISTEXT: the extra bits of a distance, and the check that it does not reach back too far. */
    method DoDistExt() returns (leave: bool)
      requires Inv() && d.st.mode.DISTEXT?
      modifies d.r`hold, d.r`bits, d.r`next, d.r`given, d`st, d`abs
      ensures Inv() && d.Moved(old(d.r.given), old(d.r.next), old(d.abs))
      ensures leave ==> d.Starved()
      ensures !leave ==> d.r.Valid() && old(d.r.Valid()) && d.r.Pos() >= old(d.r.Pos())
      ensures !leave ==> Rank(d.st.mode) < old(Rank(d.st.mode))
    {
      hide Decoder.BitsOk, Decoder.Moved, Decoder.Starved, Tight, Needed, GoodState, Goes, Matches, Num, Reach, Align,
           Next, Holds, BytesBits, Low, Shr, Pow2, FixedCodes, TablesFor, Decode, DecodeLength, Acceptable, IsTable,
           NoLonger, ValidLens, Means, JustEnough, Recent;
      Opened();
      d.Kind();
      ghost var given0, next0 := d.r.given, d.r.next;
      var limit := win.whave + put;
      Within(limit);
      var far;
      ghost var offset;
      leave, far, offset := d.DoDistExt(limit);
      if far {
        FarEnough(offset);
        d.Reject(given0, next0, limit, offset);
      }
    }

    lemma Within(limit: nat)
      requires OutOk() && !finished && limit == win.whave + put
      ensures limit <= |d.abs.out| || |d.abs.out| >= 32768
    {
    }

    /** All output so far. */
    ghost function Produced(): (h: seq<byte>)
      requires put <= outBuf.Length
      reads `hist, `outBuf, `put, outBuf
    {
      hist + outBuf[..put]
    }

    ghost predicate WindowOk()
      reads `outBuf, `put, `hist, `finished, win, win.buf
    {
      && outBuf != win.buf && put <= outBuf.Length && !finished
      && win.Keeps(hist) && (win.wsize == 0 ==> hist == [])
    }

    lemma WindowParts()
      requires OutOk() && !finished
      ensures WindowOk() && d.abs.out == Produced()
    {
    }

    method PutByte(b: byte)
      requires put < outBuf.Length
      modifies outBuf, `put
      ensures put == old(put) + 1 && put <= outBuf.Length && Produced() == old(Produced()) + [b]
      ensures outBuf[..old(put)] == old(outBuf[..put])
    {
      ghost var was := outBuf[..put];
      outBuf[put] := b;
      put := put + 1;
      assert outBuf[..put] == was + [b];
      assert hist + (was + [b]) == hist + was + [b];
    }

    /** The machine goes on to b, producing output. */
    ghost method Jump(b: State, given0: seq<byte>, next0: nat)
      requires d.r.Valid() && d.r.Read(given0, next0) && |d.r.given| - |given0| == d.r.next - next0
      requires given0 <= d.r.given
      requires GoodState(d.abs) && Reach(d.r.Stream(), d.abs, b) && d.abs.pos <= b.pos && !b.mode.Stored?
      requires !b.mode.Bad?
      requires b.pos == d.r.Pos() && d.r.bits < 8 && (b.mode.Copying? ==> d.r.bits == 0)
      requires WindowOk() && b.out == Produced() && Matches(d.st, b)
      modifies d`abs
      ensures d.abs == b && Inv() && d.Moved(given0, next0, old(d.abs))
    {
      hide GoodState, Reach, Matches;
      ReachGood(d.r.Stream(), d.abs, b);
      d.abs := b;
    }

    lemma OutputAgrees()
      requires Matches(d.st, d.abs) && GoodState(d.abs)
      ensures d.st.mode.MATCH? ==> d.st.length >= 1 && 1 <= d.st.offset <= |d.abs.out| && d.st.offset <= 32768
      ensures d.st.mode.LIT? ==> d.st.length < 256
      ensures d.st.mode.COPY? ==> d.abs.mode == Copying(d.st.length)
    {
    }

    /** LIT: a literal byte. */
    method DoLit() returns (leave: bool)
      requires Inv() && d.st.mode.LIT?
      modifies outBuf, `put, d`st, d`abs
      ensures Inv() && d.Moved(d.r.given, d.r.next, old(d.abs))
      ensures leave ==> Full()
      ensures !leave ==> put > old(put)
    {
      hide OutOk, Decoder.BitsOk, Decoder.Moved, Decoder.Starved, Tight, Needed, GoodState, Goes, Matches, Num, Reach,
           Align, Next, Holds, BytesBits, Low, Shr, Pow2, FixedCodes, TablesFor, Decode, DecodeLength, Acceptable,
           IsTable, NoLonger, ValidLens, Means, JustEnough;
      Opened();
      d.Kind();
      OutputAgrees();
      d.MovedNot();
      if put == outBuf.Length {
        return true;
      }
      WindowParts();
      OutputTight(d.r.given, d.abs);
      ghost var b := LitGoes(d.r.Stream(), d.abs, d.st);
      PutByte(d.st.length);
      d.st := d.st.(mode := LEN);
      NothingRead(d.r.given, d.r.input, d.r.next);
      Jump(b, d.r.given, d.r.next);
      leave := false;
    }

    /** The byte k places back from the start of this call's output. */
    lemma InWindow(k: nat)
      requires WindowOk() && 1 <= k <= |hist| && k <= 32768
      ensures win.wsize == WSIZE && k <= win.whave && 0 <= Back(win.write, k) < win.buf.Length
      ensures win.buf[Back(win.write, k)] == hist[|hist| - k]
    {
      assert win.buf[..][Back(win.write, k)] == hist[|hist| - k];
    }

    /** Copies bytes from the window, from place from on. */
    method CopyFromWindow(from0: nat, copy: nat, ghost k: nat, ghost h: seq<byte>, ghost offset: nat)
      requires WindowOk() && copy <= outBuf.Length - put && copy <= k <= |hist| && k <= 32768 && h == Produced()
      requires 1 <= offset <= |h| && offset == put + k
      requires from0 == Back(win.write, k) && (k <= win.write || copy <= k - win.write)
      modifies outBuf, `put
      ensures WindowOk() && put == old(put) + copy && Produced() == CopyBytes(h, copy, offset)
    {
      hide Recent, CopyBytes;
      var from := from0;
      CopyNothing(h, offset);
      for i := 0 to copy
        invariant WindowOk() && put == old(put) + i && from == from0 + i && Produced() == CopyBytes(h, i, offset)
      {
        InWindow(k - i);
        CopySnoc(h, i, offset);
        OldByte(hist, outBuf[..put], i, k, offset);
        PutByte(win.buf[from]);
        from := from + 1;
      }
    }

    /** Copies bytes from earlier output of this call. */
    method CopyFromOutput(from0: nat, copy: nat, ghost h: seq<byte>, ghost offset: nat)
      requires WindowOk() && copy <= outBuf.Length - put && h == Produced()
      requires 1 <= offset <= put && from0 == put - offset
      modifies outBuf, `put
      ensures WindowOk() && put == old(put) + copy && Produced() == CopyBytes(h, copy, offset)
    {
      hide Recent, CopyBytes;
      var from := from0;
      assert CopyBytes(h, 0, offset) == h;
      for i := 0 to copy
        invariant WindowOk() && put == old(put) + i && from == put - offset && Produced() == CopyBytes(h, i, offset)
      {
        CopySnoc(h, i, offset);
        assert Produced()[|h| + i - offset] == outBuf[..put][put - offset];
        PutByte(outBuf[from]);
        from := from + 1;
      }
    }

    /** MATCH: copies as much of a match as there is room for, from the window or from this call's output. */
    method DoMatch() returns (leave: bool)
      requires Inv() && d.st.mode.MATCH?
      modifies outBuf, `put, d`st, d`abs
      ensures Inv() && d.Moved(d.r.given, d.r.next, old(d.abs))
      ensures leave ==> Full()
      ensures !leave ==> put > old(put)
    {
      hide OutOk, Decoder.BitsOk, Decoder.Moved, Decoder.Starved, Tight, Needed, GoodState, Goes, Matches, Num, Reach,
           Align, Next, Holds, BytesBits, Low, Shr, Pow2, FixedCodes, TablesFor, Decode, DecodeLength, Acceptable,
           IsTable, NoLonger, ValidLens, Means, JustEnough;
      hide Recent, CopyBytes;
      Opened();
      d.Kind();
      OutputAgrees();
      d.MovedNot();
      var left := outBuf.Length - put;
      if left == 0 {
        return true;
      }
      WindowParts();
      OutputTight(d.r.given, d.abs);
      var copy := put;
      ghost var h := d.abs.out;
      if d.st.offset > copy {                  // copy from window
        copy := d.st.offset - copy;
        ghost var k := copy;
        InWindow(k);
        var from;
        if copy > win.write {
          copy := copy - win.write;
          from := win.wsize - copy;
        } else {
          from := win.write - copy;
        }
        if copy > d.st.length {
          copy := d.st.length;
        }
        if copy > left {
          copy := left;
        }
        ghost var b := MatchGoes(d.r.Stream(), d.abs, d.st, copy);
        CopyFromWindow(from, copy, k, h, d.st.offset);
        EndMatch(copy, b);
      } else {                               // copy from output
        var from := put - d.st.offset;
        copy := d.st.length;
        if copy > left {
          copy := left;
        }
        ghost var b := MatchGoes(d.r.Stream(), d.abs, d.st, copy);
        CopyFromOutput(from, copy, h, d.st.offset);
        EndMatch(copy, b);
      }
      leave := false;
    }

    method EndMatch(copy: nat, ghost b: State)
      requires d.r.Valid() && GoodState(d.abs) && Reach(d.r.Stream(), d.abs, b) && d.abs.pos == b.pos == d.r.Pos()
      requires (b.mode.Len? || b.mode.Match?)
      requires d.r.bits < 8 && WindowOk() && b.out == Produced() && d.st.mode.MATCH? && 1 <= copy <= d.st.length
      requires Matches(d.st.(length := d.st.length - copy, mode := if d.st.length == copy then LEN else MATCH), b)
      modifies d`st, d`abs
      ensures Inv() && d.Moved(d.r.given, d.r.next, old(d.abs))
    {
      hide OutOk, Decoder.BitsOk, Decoder.Moved, Decoder.Starved, Tight, Needed, GoodState, Goes, Matches, Num, Reach,
           Align, Next, Holds, BytesBits, Low, Shr, Pow2, FixedCodes, TablesFor, Decode, DecodeLength, Acceptable,
           IsTable, NoLonger, ValidLens, Means, JustEnough;
      d.st := d.st.(length := d.st.length - copy);
      if d.st.length == 0 {
        d.st := d.st.(mode := LEN);
      }
      NothingRead(d.r.given, d.r.input, d.r.next);
      Jump(b, d.r.given, d.r.next);
    }

    /** COPY: as much of a stored block as there are input and room for. */
    method DoCopy() returns (leave: bool)
      requires Inv() && d.st.mode.COPY?
      modifies d.r`next, d.r`given, outBuf, `put, d`st, d`abs
      ensures Inv() && d.Moved(old(d.r.given), old(d.r.next), old(d.abs))
      ensures leave ==> Full() || d.Starved()
      ensures !leave ==> d.r.Valid() && old(d.r.Valid())
      ensures !leave ==>
               (d.r.Pos() > old(d.r.Pos()) && put > old(put)) || (d.r.Pos() == old(d.r.Pos()) && put == old(put)
                   && Rank(d.st.mode) < old(Rank(d.st.mode)))
    {
      hide OutOk, Decoder.BitsOk, Decoder.Moved, Decoder.Starved, Tight, Needed, GoodState, Goes, Matches, Num, Reach,
           Align, Next, Holds, BytesBits, Low, Shr, Pow2, FixedCodes, TablesFor, Decode, DecodeLength, Acceptable,
           IsTable, NoLonger, ValidLens, Means, JustEnough;
      Opened();
      d.Kind();
      OutputAgrees();
      d.MovedNot();
      WindowParts();
      ghost var given0, next0 := d.r.given, d.r.next;
      var copy := d.st.length;
      if copy != 0 {
        if copy > |d.r.input| - d.r.next {
          copy := |d.r.input| - d.r.next;
        }
        if copy > outBuf.Length - put {
          copy := outBuf.Length - put;
        }
        if copy == 0 {
          NothingToCopy();
          return true;
        }
        CopyBlock(copy);
      } else {
        ghost var b := CopyEnds(d.r.Stream(), d.abs, d.st);
        d.st := d.st.(mode := TYPE);
        NothingNeeded(given0, d.abs);
        NothingRead(given0, d.r.input, next0);
        d.Step(b, given0, next0);
        OutStays();
      }
      leave := false;
    }

    /** copy bytes of a stored block, from the input to the output. */
    method CopyBlock(copy: nat)
      requires WindowOk() && d.abs.out == Produced() && d.BitsOk() && Matches(d.st, d.abs) && d.st.mode.COPY?
      requires d.r.Valid()
      requires 1 <= copy <= d.st.length && copy <= outBuf.Length - put && d.r.next + copy <= |d.r.input|
      modifies d.r`next, d.r`given, outBuf, `put, d`st, d`abs
      ensures Inv() && d.Moved(old(d.r.given), old(d.r.next), old(d.abs)) && put == old(put) + copy
      ensures old(d.r.Valid()) && d.r.Valid() && d.r.Pos() == old(d.r.Pos()) + 8 * copy
    {
      hide OutOk, Decoder.BitsOk, Decoder.Moved, Decoder.Starved, Tight, Needed, GoodState, Goes, Matches, Num, Reach,
           Align, Next, Holds, BytesBits, Low, Shr, Pow2, FixedCodes, TablesFor, Decode, DecodeLength, Acceptable,
           IsTable, NoLonger, ValidLens, Means, JustEnough;
      d.Kind();
      CopyParts();
      OutputAgrees();
      ghost var given0, next0 := d.r.given, d.r.next;
      ghost var data := d.r.input[d.r.next..d.r.next + copy];
      CopyInput(copy, Produced());
      d.r.TakeBytes(copy);
      TakenAt(given0, data);
      ghost var b := CopyGoes(d.r.Stream(), d.abs, d.st, data);
      d.st := d.st.(length := d.st.length - copy);
      Jump(b, given0, next0);
    }

    lemma CopyParts()
      requires d.BitsOk() && d.abs.mode.Copying?
      ensures d.r.Valid() && d.r.bits == 0 && GoodState(d.abs) && d.abs.pos == d.r.Pos()
    {
    }

    /** zmemcpy from the input. */
    method CopyInput(copy: nat, ghost h: seq<byte>)
      requires WindowOk() && copy <= outBuf.Length - put && d.r.next + copy <= |d.r.input| && h == Produced()
      modifies outBuf, `put
      ensures WindowOk() && put == old(put) + copy && Produced() == h + d.r.input[d.r.next..d.r.next + copy]
    {
      hide Recent;
      assert h + [] == h;
      for i := 0 to copy
        invariant WindowOk() && put == old(put) + i && Produced() == h + d.r.input[d.r.next..d.r.next + i]
      {
        PutByte(d.r.input[d.r.next + i]);
        assert d.r.input[d.r.next..d.r.next + i + 1] == d.r.input[d.r.next..d.r.next + i] + [d.r.input[d.r.next + i]];
      }
    }

    lemma NothingToCopy()
      requires d.BitsOk() && d.abs.mode.Copying? && d.abs.mode.left > 0
      requires d.r.next == |d.r.input| || put == outBuf.Length
      requires d.st.mode.COPY? && d.st.length == d.abs.mode.left
      ensures Full() || d.Starved()
    {
      NoByteYet(d.r.Stream(), d.abs);
    }

    /** HEAD and CHECK, for a raw stream without header and trailer. */
    method DoWrap()
      requires Inv() && (d.st.mode.HEAD? || d.st.mode.CHECK?)
      modifies d`st
      ensures Inv() && d.Moved(d.r.given, d.r.next, d.abs)
      ensures Rank(d.st.mode) < old(Rank(d.st.mode))
    {
      hide OutOk, Decoder.BitsOk, Decoder.Moved, TablesFor, ValidLens;
      Opened();
      d.MovedNot();
      if d.st.mode.HEAD? {
        d.st := d.st.(mode := TYPE);
      } else {
        d.st := d.st.(mode := DONE);
      }
    }

    /** The modes that only read. */
    method TurnReading() returns (leave: bool)
      requires Inv() && Reads(d.st.mode)
      modifies d.r`hold, d.r`bits, d.r`next, d.r`given, d`st, d`abs
      ensures Inv() && d.Moved(old(d.r.given), old(d.r.next), old(d.abs))
      ensures leave ==> d.Starved()
      ensures d.r.Valid() && old(d.r.Valid())
      ensures !leave ==> d.r.Pos() >= old(d.r.Pos())
      ensures !leave ==> d.r.Pos() > old(d.r.Pos()) || Rank(d.st.mode) < old(Rank(d.st.mode))
    {
      hide OutOk, Decoder.BitsOk, Decoder.Moved, Decoder.Starved, Tight, Needed, GoodState, Goes, Matches, Num, Reach,
           Align, Next, Holds, BytesBits, Low, Shr, Pow2, FixedCodes, TablesFor, Decode, DecodeLength, Acceptable,
           IsTable, NoLonger, ValidLens, Means, JustEnough, Decoder.Fast, Recent;
      Opened();
      d.Kind();
      WindowParts();
      leave := false;
      match d.st.mode {
        case TYPE => leave := d.DoType();
        case STORED => leave := d.DoStored();
        case TABLE => leave := d.DoTable();
        case LENLENS => leave := d.DoLenLens();
        case CODELENS => leave := d.DoCodeLens();
        case LEN => leave := d.DoLen();
        case LENEXT => leave := d.DoLenExt();
        case DIST => leave := d.DoDist();
      }
      OutStays();
      Opened();
    }

    predicate Reads(m: IMode)
    {
      m.TYPE? || m.STORED? || m.TABLE? || m.LENLENS? || m.CODELENS? || m.LEN? || m.LENEXT? || m.DIST?
    }

    /** One turn of the loop of inflate(). */
    method Turn() returns (leave: bool)
      requires Inv()
      modifies d.r`hold, d.r`bits, d.r`next, d.r`given, outBuf, `put, d`st, d`abs
      ensures Inv() && d.Moved(old(d.r.given), old(d.r.next), old(d.abs))
      ensures leave ==> Full() || d.Starved() || d.st.mode.DONE? || d.st.mode.BAD?
      ensures d.r.Valid() && old(d.r.Valid())
      ensures !leave ==> d.r.Pos() >= old(d.r.Pos())
      ensures !leave ==>
               || d.r.Pos() > old(d.r.Pos()) || put > old(put)
               || (put == old(put) && Rank(d.st.mode) < old(Rank(d.st.mode)))
    {
      hide OutOk, Decoder.BitsOk, Decoder.Moved, Decoder.Starved, Tight, Needed, GoodState, Goes, Matches, Num, Reach,
           Align, Next, Holds, BytesBits, Low, Shr, Pow2, FixedCodes, TablesFor, Decode, DecodeLength, Acceptable,
           IsTable, NoLonger, ValidLens, Means, JustEnough, Decoder.Fast, Recent;
      Opened();
      leave := false;
      match d.st.mode {
        case HEAD => DoWrap();
        case COPY => leave := DoCopy();
        case LEN =>
          if |d.r.input| - d.r.next >= 6 && outBuf.Length - put >= 258 {
            InflateFast();
          } else {
            leave := TurnReading();
          }
        case DISTEXT => leave := DoDistExt();
        case MATCH => leave := DoMatch();
        case LIT => leave := DoLit();
        case CHECK => DoWrap();
        case DONE => d.MovedNot(); leave := true;
        case BAD => d.MovedNot(); leave := true;
        case _ => leave := TurnReading();
      }
      Opened();
    }

    /** Between two calls: all calls so far are one run of the machine over all input taken. */
    ghost predicate AtRest()
      reads this, d, d.r, win, win.buf, outBuf
    {
      Inv() && put == 0 && Reach(BytesBits(d.r.given), START, d.abs)
    }

    lemma Total(total: int, given0: seq<byte>, next0: nat)
      requires d.r.Valid() && d.r.Read(given0, next0) && |d.r.given| - |given0| == d.r.next - next0
      requires total == 8 * |d.r.input| + 8 * (|given0| - next0)
      ensures total - d.r.Pos() >= 0
    {
    }

    /** Takes the caller's buffers. */
    method Load(inp: seq<byte>, buf: array<byte>)
      requires AtRest() && buf != win.buf
      modifies d.r`input, d.r`next, `outBuf
      ensures Inv() && put == 0 && d.r.input == inp && d.r.next == 0 && outBuf == buf && d.Moved(d.r.given, 0, d.abs)
    {
      hide GoodState, Tight, Matches, Reach;
      d.r.input, d.r.next := inp, 0;
      outBuf := buf;
      d.MovedNot();
    }

    /** inf_leave: updates the window if there is one, or if output was written and the stream goes on. */
    method Leave()
      requires Inv()
      modifies win, win.buf, `put, `hist, `finished
      ensures Inv() && put == 0 && outBuf[..] == old(outBuf[..])
    {
      hide Decoder.BitsOk, Matches, TablesFor;
      Opened();
      d.Kind();
      if win.wsize != 0 || (!d.st.mode.CHECK? && !d.st.mode.DONE? && !d.st.mode.BAD? && put != 0) {
        win.UpdateWindow(outBuf, put, hist);
      } else if put != 0 {
        finished := true;
      }
      hist := hist + outBuf[..put];
      put := 0;
      assert hist + outBuf[..0] == hist;
    }

    /** The loop of inflate(): until input or room for output runs out, or the stream ends. */
    method Run(ghost a0: State, ghost given0: seq<byte>)
      requires Inv() && put == 0 && d.r.next == 0 && a0 == d.abs && given0 == d.r.given && GoodState(a0)
      requires d.Moved(given0, 0, a0)
      modifies d.r`hold, d.r`bits, d.r`next, d.r`given, outBuf, `put, d`st, d`abs
      ensures Inv() && d.Moved(given0, 0, a0)
      ensures Full() || d.Starved() || d.st.mode.DONE? || d.st.mode.BAD?
    {
      hide OutOk, Decoder.BitsOk, Decoder.Moved, Decoder.Starved, Tight, Needed, GoodState, Goes, Matches, Num, Reach,
           Align, Next, Holds, BytesBits, Low, Shr, Pow2, FixedCodes, TablesFor, Decode, DecodeLength, Acceptable,
           IsTable, NoLonger, ValidLens, Means, JustEnough;
      Opened();
      ghost var total := 8 * |d.r.input| + 8 * |given0|;
      var leave := false;
      while !leave
        invariant Inv() && d.Moved(given0, 0, a0) && d.r.Valid() && put <= outBuf.Length
        invariant leave ==> Full() || d.Starved() || d.st.mode.DONE? || d.st.mode.BAD?
        decreases !leave, total - d.r.Pos(), outBuf.Length - put, Rank(d.st.mode)
      {
        ghost var a1, given1, next1 := d.abs, d.r.given, d.r.next;
        d.MovedParts(given0, 0, a0);
        Total(total, given0, 0);
        leave := Turn();
        d.MovedOn(given0, 0, a0, given1, next1, a1);
        d.MovedParts(given0, 0, a0);
        PutFits();
      }
    }

    lemma PutFits()
      requires OutOk()
      ensures put <= outBuf.Length
    {
    }

    /**
     inflate(): decodes as much of inp as there is room for in buf. The bytes taken and the bytes
     written are a run of the machine that reads the whole stream, and the run only stops where it
     has to.
     */
    method Inflate(inp: seq<byte>, buf: array<byte>) returns (used: nat, written: nat, ret: Ret)
      requires AtRest() && buf != win.buf
      modifies this, d, d.r, win, win.buf, buf
      ensures AtRest() && used <= |inp| && written <= buf.Length
      ensures d.r.given == old(d.r.given) + inp[..used] && d.abs.out == old(d.abs.out) + buf[..written]
      ensures Reach(BytesBits(d.r.given), old(d.abs), d.abs)
      ensures ret.StreamEnd? <==> d.abs.mode.Done?
      ensures ret.StreamEnd? ==> 8 * |d.r.given| == d.abs.pos
      ensures ret.DataError? <==> d.abs.mode.Bad?
      ensures ret.BufError? <==> !Final(d.abs) && used == 0 && written == 0
      ensures !Final(d.abs) ==>
               (used == |inp| && Next(BytesBits(d.r.given), d.abs).None?) || (written == buf.Length && WantsRoom(d.abs))
    {
      hide OutOk, Decoder.BitsOk, Decoder.Moved, Matches, GoodState, Reach, Next, BytesBits, TablesFor;
      Opened();
      OutIsHist();
      ghost var a0, given0, h := d.abs, d.r.given, hist;
      Load(inp, buf);
      Run(a0, given0);
      Opened();
      d.Kind();
      d.MovedParts(given0, 0, a0);
      StillOneRun(given0, a0);
      OutIsProduced();
      used := d.r.next;
      written := put;
      Leaves();
      if d.st.mode.DONE? {
        ret := StreamEnd;
      } else if d.st.mode.BAD? {
        ret := DataError;
      } else if used == 0 && written == 0 {
        ret := BufError;
      } else {
        ret := Ok;
      }
      Leave();
    }

    lemma StillOneRun(given0: seq<byte>, a0: State)
      requires given0 <= d.r.given && Reach(BytesBits(given0), START, a0) && Reach(BytesBits(d.r.given), a0, d.abs)
      ensures Reach(BytesBits(d.r.given), START, d.abs)
    {
      hide Reach;
      OneRun(d.r.given, given0, a0);
      ReachTrans(BytesBits(d.r.given), START, a0, d.abs);
    }

    lemma OutIsHist()
      requires OutOk() && put == 0
      ensures d.abs.out == hist
    {
    }

    lemma OutIsProduced()
      requires OutOk()
      ensures put <= outBuf.Length && d.abs.out == hist + outBuf[..put]
    {
    }

    lemma Leaves()
      requires d.BitsOk() && Matches(d.st, d.abs) && (Full() || d.Starved() || d.st.mode.DONE? || d.st.mode.BAD?)
      ensures Final(d.abs) || (d.r.next == |d.r.input| && Next(d.r.Stream(), d.abs).None?)
               || (put == outBuf.Length && WantsRoom(d.abs))
      ensures d.abs.mode.Done? <==> d.st.mode.DONE?
      ensures d.abs.mode.Done? ==> 8 * |d.r.given| == d.abs.pos
    {
      hide Next;
      d.Kind();
    }

    // ---------- inflate_fast ----------

    /** Where the next n bytes of a copy with the given distance are: in the window, or in the output of this call. */
    ghost predicate Points(inWindow: bool, from: nat, offset: nat, n: nat)
      reads `put, win
    {
      n == 0 ||
      if inWindow then
        && put < offset && n <= offset - put && from == Back(win.write, offset - put)
        && (offset - put <= win.write || n <= offset - put - win.write)
      else offset <= put && from == put - offset
    }

    /** PUP(out) = PUP(from). */
    method FastByte(inWindow: bool, from: nat, ghost n: nat, ghost h: seq<byte>, ghost i: nat, ghost offset: nat)
      requires WindowOk() && put < outBuf.Length && n >= 1 && Points(inWindow, from, offset, n)
      requires 1 <= offset <= |h| && offset <= 32768 && Produced() == CopyBytes(h, i, offset)
      modifies outBuf, `put
      ensures WindowOk() && put == old(put) + 1 && put <= outBuf.Length && Points(inWindow, from + 1, offset, n - 1)
      ensures Produced() == CopyBytes(h, i + 1, offset)
    {
      hide Recent, CopyBytes;
      CopySnoc(h, i, offset);
      if inWindow {
        InWindow(offset - put);
        OldByte(hist, outBuf[..put], 0, offset - put, offset);
        PutByte(win.buf[from]);
      } else {
        assert Produced()[|h| + i - offset] == outBuf[..put][put - offset];
        PutByte(outBuf[from]);
      }
    }

    /** do { PUP(out) = PUP(from); } while (--op): op bytes from one place. */
    method FastSome(from0: nat, op0: nat, ghost h: seq<byte>, ghost i0: nat, ghost offset: nat)
      requires WindowOk() && 1 <= op0 <= outBuf.Length - put && Points(true, from0, offset, op0)
      requires 1 <= offset <= |h| && offset <= 32768 && Produced() == CopyBytes(h, i0, offset)
      modifies outBuf, `put
      ensures WindowOk() && put == old(put) + op0 && put <= outBuf.Length
      ensures Produced() == CopyBytes(h, i0 + op0, offset)
    {
      hide Recent, CopyBytes, Points, WindowOk;
      var from, op := from0, op0;
      ghost var i := i0;
      while true
        invariant 1 <= op <= op0 && i == i0 + op0 - op && put == old(put) + op0 - op && op <= outBuf.Length - put
        invariant WindowOk() && Points(true, from, offset, op) && Produced() == CopyBytes(h, i, offset)
        decreases op
      {
        FastByte(true, from, op, h, i, offset);
        from := from + 1;
        op := op - 1;
        i := i + 1;
        if op == 0 {
          break;
        }
      }
    }

    /** The rest of a match, three bytes at a time. */
    method FastRest(inWindow: bool, from0: nat, len0: nat, ghost h: seq<byte>, ghost i0: nat, ghost offset: nat)
      requires WindowOk() && len0 <= outBuf.Length - put && Points(inWindow, from0, offset, len0)
      requires 1 <= offset <= |h| && offset <= 32768 && Produced() == CopyBytes(h, i0, offset)
      modifies outBuf, `put
      ensures WindowOk() && put == old(put) + len0 && Produced() == CopyBytes(h, i0 + len0, offset)
    {
      hide Recent, CopyBytes, Points, WindowOk;
      var from: nat, len: nat := from0, len0;
      ghost var i := i0;
      while len > 2
        invariant len <= len0 && i == i0 + len0 - len && put == old(put) + len0 - len && len <= outBuf.Length - put
        invariant WindowOk() && Points(inWindow, from, offset, len) && Produced() == CopyBytes(h, i, offset)
      {
        FastByte(inWindow, from, len, h, i, offset);
        FastByte(inWindow, from + 1, len - 1, h, i + 1, offset);
        FastByte(inWindow, from + 2, len - 2, h, i + 2, offset);
        from := from + 3;
        i := i + 3;
        len := len - 3;
      }
      if len != 0 {
        FastByte(inWindow, from, len, h, i, offset);
        if len > 1 {
          FastByte(inWindow, from + 1, len - 1, h, i + 1, offset);
        }
      }
    }

    /** The copy of a match: from the window, around its end, and on into the output, or from the output alone. */
    method FastCopy(len0: nat, dist: nat, ghost h: seq<byte>)
      requires WindowOk() && 3 <= len0 <= outBuf.Length - put && 1 <= dist <= |h| && dist <= 32768 && h == Produced()
      modifies outBuf, `put
      ensures WindowOk() && put == old(put) + len0 && Produced() == CopyBytes(h, len0, dist)
    {
      hide Recent, CopyBytes;
      assert CopyBytes(h, 0, dist) == h by { CopyNothing(h, dist); }
      var len := len0;
      ghost var i := 0;
      var op := put;
      if dist > op {
        op := dist - op;
        InWindow(op);
        var write, wsize := win.write, win.wsize;
        var inWindow, from := true, 0;
        if write == 0 {
          from := wsize - op;
          if op < len {
            len := len - op;
            FastSome(from, op, h, i, dist);
            i := i + op;
            inWindow, from := false, put - dist;
          }
        } else if write < op {
          from := wsize + write - op;
          op := op - write;
          if op < len {
            len := len - op;
            FastSome(from, op, h, i, dist);
            i := i + op;
            from := 0;
            if write < len {
              op := write;
              len := len - op;
              FastSome(from, op, h, i, dist);
              i := i + op;
              inWindow, from := false, put - dist;
            }
          }
        } else {
          from := write - op;
          if op < len {
            len := len - op;
            FastSome(from, op, h, i, dist);
            i := i + op;
            inWindow, from := false, put - dist;
          }
        }
        FastRest(inWindow, from, len, h, i, dist);
      } else {
        FastRest(false, put - dist, len, h, i, dist);
      }
    }

    /** Between two symbols of inflate_fast. */
    ghost predicate FastReady(c: Codes, given0: seq<byte>, next0: nat, a0: State)
      reads d, d.r, `outBuf, `put, `hist, `finished, win, win.buf, outBuf
    {
      d.FastIn(c, given0, next0, a0) && WindowOk() && d.abs.out == Produced()
    }

    /** Behind the last symbol. */
    ghost predicate FastOver(given0: seq<byte>, next0: nat, a0: State)
      reads d, d.r, `outBuf, `put, `hist, `finished, win, win.buf, outBuf
    {
      d.FastOut(given0, next0, a0) && WindowOk() && d.abs.out == Produced()
    }

    /** A literal. */
    method FastLiteral(b: byte, ghost c: Codes, ghost given0: seq<byte>, ghost next0: nat, ghost a0: State)
      requires d.Fast(given0, next0, a0) && d.abs.mode == Lit(c, b) && d.r.bits <= 8 * |d.r.given|
      requires d.abs.pos == d.r.Pos()
      requires d.abs.last == a0.last
      requires d.FastTables(c) && WindowOk() && d.abs.out == Produced() && put < outBuf.Length
      modifies outBuf, `put, d`abs
      ensures FastReady(c, given0, next0, a0) && put == old(put) + 1
    {
      hide OutOk, Decoder.BitsOk, Decoder.Moved, Decoder.Starved, Tight, Needed, GoodState, Goes, Matches, Num, Reach,
           Align, Next, Holds, BytesBits, Low, Shr, Pow2, FixedCodes, TablesFor, Decode, DecodeLength, Acceptable,
           IsTable, NoLonger, ValidLens, Means, JustEnough, Decoder.FastTables, Recent, CopyBytes;
      PutByte(b);
      ghost var a1 := d.abs.(mode := Len(c), out := Produced(), toks := d.abs.toks + [Literal(b)]);
      LitNext(d.r.Stream(), d.abs);
      FastFurther(d.r.Stream(), a0, d.abs, a1);
      d.abs := a1;
    }

    /** The distance of a match, and the check that it does not reach back too far. */
    method FastDistance(e: Entry, len: nat, ghost c: Codes, ghost given0: seq<byte>, ghost next0: nat, ghost a0: State)
      returns (dist: nat, ok: bool)
      requires d.Fast(given0, next0, a0) && d.abs.mode == DistExt(c, len, e.val, e.op % 16) && d.r.Valid()
      requires d.abs.pos == d.r.Pos() && OutOk() && !finished
      requires d.r.bits < 13 ==> d.r.next + (if d.r.bits < 5 then 2 else 1) <= |d.r.input|
      modifies d.r`hold, d.r`bits, d.r`next, d.r`given, d`abs
      ensures d.Fast(given0, next0, a0) && d.r.Valid() && d.abs.pos == d.r.Pos()
      ensures d.abs.out == old(d.abs).out && d.abs.last == old(d.abs).last
      ensures if ok then d.abs.mode == Match(c, len, dist) else d.abs.mode.Bad?
      ensures old(d.r.Valid()) && old(d.r.Pos()) <= d.r.Pos()
    {
      hide Decoder.BitsOk, Decoder.Moved, Decoder.Starved, Tight, Needed, GoodState, Goes, Matches, Num, Reach,
           Align, Next, Holds, BytesBits, Low, Shr, Pow2, FixedCodes, TablesFor, Decode, DecodeLength, Acceptable,
           IsTable, NoLonger, ValidLens, Means, JustEnough, Decoder.Fast, Recent, CopyBytes;
      dist := d.FastOffset(e, len, c, given0, next0, a0);
      FarEnough(dist);
      d.FastDecide(dist, given0, next0, a0);
      ok := true;
      if dist > put {
        ok := dist - put <= win.whave;
      }
    }

    /** The copy of a match, as one step of the run. */
    method FastMatched(len: nat, dist: nat, ghost c: Codes, ghost given0: seq<byte>, ghost next0: nat, ghost a0: State)
      requires d.Fast(given0, next0, a0) && d.abs.mode == Match(c, len, dist) && d.r.Valid() && d.abs.pos == d.r.Pos()
      requires d.abs.last == a0.last
      requires 3 <= len <= outBuf.Length - put && WindowOk() && d.FastTables(c) && d.abs.out == Produced()
      modifies outBuf, `put, d`abs
      ensures FastReady(c, given0, next0, a0) && put == old(put) + len
    {
      hide OutOk, Decoder.BitsOk, Decoder.Moved, Decoder.Starved, Tight, Needed, GoodState, Goes, Matches, Num, Reach,
           Align, Next, Holds, BytesBits, Low, Shr, Pow2, FixedCodes, TablesFor, Decode, DecodeLength, Acceptable,
           IsTable, NoLonger, ValidLens, Means, JustEnough, Decoder.FastTables, Recent, CopyBytes;
      FastBounds(d.abs);
      FastMatch(d.r.Stream(), a0, d.abs);
      FastCopy(len, dist, d.abs.out);
      d.abs := d.abs.(mode := Len(c), out := Produced());
    }

    /** A length, a distance and the copy. */
    method FastPair(e0: Entry, ghost c: Codes, ghost given0: seq<byte>, ghost next0: nat, ghost a0: State)
      returns (go: bool)
      requires d.Fast(given0, next0, a0) && d.abs.mode == LenExt(c, e0.val, e0.op % 16) && d.r.Valid()
      requires d.abs.pos == d.r.Pos() && d.abs.last == a0.last && d.FastTables(c)
      requires WindowOk() && OutOk() && d.abs.out == Produced() && 258 <= outBuf.Length - put
      requires 8 * (|d.r.input| - d.r.next) + d.r.bits >= 33
      modifies d.r`hold, d.r`bits, d.r`next, d.r`given, outBuf, `put, d`abs
      ensures go ==> FastReady(c, given0, next0, a0) && put > old(put)
      ensures !go ==> FastOver(given0, next0, a0) && d.abs.mode.Bad? && put >= old(put)
      ensures d.r.Valid() && old(d.r.Valid()) && d.r.Pos() >= old(d.r.Pos())
    {
      hide Decoder.BitsOk, Decoder.Moved, Decoder.Starved, Tight, Needed, GoodState, Goes, Matches, Num, Reach,
           Align, Next, Holds, BytesBits, Low, Shr, Pow2, FixedCodes, TablesFor, Decode, DecodeLength, Acceptable,
           IsTable, NoLonger, ValidLens, Means, JustEnough, Decoder.Fast, Recent, CopyBytes;
      var len, e := d.FastDistCode(e0, c, given0, next0, a0);
      if e.op / 16 % 2 == 1 {
        OutStays();
        var dist, ok := FastDistance(e, len, c, given0, next0, a0);
        if ok {
          FastMatched(len, dist, c, given0, next0, a0);
          go := true;
        } else {
          go := false;
        }
      } else {
        go := false;
      }
    }

    /** One turn of the loop of inflate_fast: a literal, a match, or the end of the block. */
    method FastTurn(ghost c: Codes, ghost given0: seq<byte>, ghost next0: nat, ghost a0: State) returns (go: bool)
      requires FastReady(c, given0, next0, a0) && |d.r.input| - d.r.next >= 6 && outBuf.Length - put >= 258
      requires d.st.mode.LEN?
      modifies d.r`hold, d.r`bits, d.r`next, d.r`given, outBuf, `put, d`st, d`abs
      ensures go ==> FastReady(c, given0, next0, a0) && put > old(put) && d.st == old(d.st)
      ensures !go ==> FastOver(given0, next0, a0)
      ensures !go ==> d.st == old(d.st).(mode := if d.abs.mode.Type? then TYPE else BAD)
      ensures d.r.Valid() && old(d.r.Valid()) && d.r.Pos() > old(d.r.Pos())
    {
      hide OutOk, Decoder.BitsOk, Decoder.Moved, Decoder.Starved, Tight, Needed, GoodState, Goes, Matches, Num, Reach,
           Align, Next, Holds, BytesBits, Low, Shr, Pow2, FixedCodes, TablesFor, Decode, DecodeLength, Acceptable,
           IsTable, NoLonger, ValidLens, Means, JustEnough, Decoder.Fast, Recent, CopyBytes;
      d.FastParts(given0, next0, a0);
      var e := d.FastSymbol(c, given0, next0, a0);
      OutStays();
      if e.op == 0 {
        FastLiteral(e.val, c, given0, next0, a0);
        go := true;
      } else if e.op / 16 % 2 == 1 {
        go := FastPair(e, c, given0, next0, a0);
        if !go {
          d.st := d.st.(mode := BAD);
        }
      } else if e.op / 32 % 2 == 1 {
        d.st := d.st.(mode := TYPE);
        go := false;
      } else {
        d.st := d.st.(mode := BAD);
        go := false;
      }
    }

    /**
     inflate_fast: decodes symbols while there are 6 bytes of input and room for 258 bytes. It ends in a
     state that the slow path reaches after the same symbols, with fewer than 8 bits held.
     */
    method InflateFast()
      requires Inv() && d.st.mode.LEN? && |d.r.input| - d.r.next >= 6 && outBuf.Length - put >= 258
      modifies d.r`hold, d.r`bits, d.r`next, d.r`given, outBuf, `put, d`st, d`abs
      ensures Inv() && d.Moved(old(d.r.given), old(d.r.next), old(d.abs)) && d.r.bits < 8
      ensures d.st.mode.LEN? || d.st.mode.TYPE? || d.st.mode.BAD?
      ensures d.r.Valid() && old(d.r.Valid()) && d.r.Pos() > old(d.r.Pos())
    {
      hide OutOk, Decoder.BitsOk, Decoder.Moved, Decoder.Starved, Tight, Needed, GoodState, Goes, Matches, Num, Reach,
           Align, Next, Holds, BytesBits, Low, Shr, Pow2, FixedCodes, TablesFor, Decode, DecodeLength, Acceptable,
           IsTable, NoLonger, ValidLens, Means, JustEnough, Decoder.Fast, Recent, CopyBytes, FastReady, FastOver,
           Decoder.FastIn, Decoder.FastOut;
      Opened();
      d.Kind();
      ghost var given0, next0, a0, st0, c := d.r.given, d.r.next, d.abs, d.st, CodesOf(d.abs.mode);
      ghost var total := 8 * |d.r.input| + 8 * (|given0| - next0);
      d.FastStarts(c);
      FastBegins(c);
      var go := true;
      while true
        invariant FastReady(c, given0, next0, a0) && d.st == st0
        invariant |d.r.input| - d.r.next >= 6 && outBuf.Length - put >= 258
        invariant d.r.Valid() && d.r.Pos() >= a0.pos && |d.r.given| - |given0| == d.r.next - next0
        decreases total - d.r.Pos()
      {
        go := FastTurn(c, given0, next0, a0);
        FastGoesOn(go, c, given0, next0, a0);
        d.FastMore(go, c, given0, next0, a0);
        if !(go && |d.r.input| - d.r.next > 5 && outBuf.Length - put > 257) {
          break;
        }
      }
      d.FastStops(c, given0, next0, a0, st0);
      d.FastGiveBack(given0, next0, a0);
      OutStays();
      d.Opened();
      d.Kind();
    }

    lemma FastBegins(c: Codes)
      requires OutOk() && !finished && d.FastIn(c, d.r.given, d.r.next, d.abs)
      ensures FastReady(c, d.r.given, d.r.next, d.abs)
    {
      hide Decoder.FastIn, Recent;
      WindowParts();
    }

    lemma FastGoesOn(go: bool, c: Codes, given0: seq<byte>, next0: nat, a0: State)
      requires if go then FastReady(c, given0, next0, a0) else FastOver(given0, next0, a0)
      ensures put <= outBuf.Length && WindowOk() && d.abs.out == Produced()
      ensures if go then d.FastIn(c, given0, next0, a0) else d.FastOut(given0, next0, a0)
    {
      hide Decoder.Fast, Decoder.FastIn, Decoder.FastOut, Recent;
    }

    lemma OutStays()
      requires WindowOk() && d.abs.out == Produced()
      ensures OutOk()
    {
    }
  }

  lemma OldByte(hist: seq<byte>, out: seq<byte>, i: nat, k: nat, offset: nat)
    requires i < k <= |hist| && i <= |out| && offset == |out| - i + k
    ensures (hist + out)[|hist| + |out| - offset] == hist[|hist| - (k - i)]
  {
  }

  // ---------- chunks ----------

  /**
   Two runs of inflate over prefixes of one stream that have both ended have produced the same bytes
   and tokens, consumed the same bits, and ended the same way, whatever the pieces of input and
   output they were given.
   */
  lemma ChunksDoNotMatter(stream: seq<byte>, given1: seq<byte>, given2: seq<byte>, a1: State, a2: State)
    requires given1 <= stream && given2 <= stream
    requires Reach(BytesBits(given1), START, a1) && Reach(BytesBits(given2), START, a2)
    requires Final(a1) && Final(a2)
    ensures a1 == a2
  {
    hide Reach;
    OneRun(stream, given1, a1);
    OneRun(stream, given2, a2);
    NoBranching(BytesBits(stream), START, a1, a2);
    if Reach(BytesBits(stream), a1, a2) {
      FinalIsLast(BytesBits(stream), a1, a2);
    } else {
      FinalIsLast(BytesBits(stream), a2, a1);
    }
  }

  lemma OneRun(stream: seq<byte>, given: seq<byte>, a: State)
    requires given <= stream && Reach(BytesBits(given), START, a)
    ensures Reach(BytesBits(stream), START, a)
  {
    hide Reach;
    var more := stream[|given|..];
    assert stream == given + more;
    BytesBitsAppend(given, more);
    ReachLonger(BytesBits(given), BytesBits(more), START, a);
  }

  /** Two runs, ended or not: the output of one is the beginning of the output of the other. */
  lemma OutputsAgree(stream: seq<byte>, given1: seq<byte>, given2: seq<byte>, a1: State, a2: State)
    requires given1 <= stream && given2 <= stream
    requires Reach(BytesBits(given1), START, a1) && Reach(BytesBits(given2), START, a2)
    ensures a1.out <= a2.out || a2.out <= a1.out
  {
    hide Reach, Steps;
    var B := BytesBits(stream);
    OneRun(stream, given1, a1);
    OneRun(stream, given2, a2);
    NoBranching(B, START, a1, a2);
    if Reach(B, a1, a2) {
      ReachOut(B, a1, a2);
    } else {
      ReachOut(B, a2, a1);
    }
  }

  lemma ReachOut(B: Bits, a: State, b: State)
    requires Reach(B, a, b)
    ensures a.out <= b.out && a.pos <= b.pos && a.toks <= b.toks
  {
    hide Next;
    var n: nat :| Steps(B, a, n) == Some(b);
    OutGrows(B, a, n);
  }

  /** A run that has been given all of a stream and room enough ends where the stream ends. */
  lemma NothingIsMissed(stream: seq<byte>, a: State, end: State)
    requires Reach(BytesBits(stream), START, a) && Next(BytesBits(stream), a).None?
    requires Reach(BytesBits(stream), START, end) && Final(end)
    ensures a == end
  {
    hide Next;
    var B := BytesBits(stream);
    NoBranching(B, START, a, end);
    if Reach(B, a, end) {
      var n: nat :| Steps(B, a, n) == Some(end);
      assert n == 0;
    } else {
      FinalIsLast(B, end, a);
    }
  }
}
