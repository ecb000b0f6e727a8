/**
 inflateBack() (infback.c) for a 32K window: the window itself is the output buffer, input comes from one callback,
 and each full window goes to another.
 */
module BackInflating {
  import opened Shift
  import opened Bits
  import opened Canonical
  import opened InfTreesSpec
  import opened InfTrees
  import opened Format
  import opened FormatFacts
  import opened BlockCode
  import opened BlockRoundTrip
  import opened BitReading
  import opened Lookup
  import opened Windows
  import opened InflateStates
  import opened Decoders

  datatype BackRet = BackEnd | BackDataError | BackBufError

  /** The outcome of one turn of inflate_fast. */
  datatype Turned = Go | Over | Far

  /** How a turn of the loop ends: it goes on, in() or out() has failed, or a distance was too far. */
  datatype Status = More | Dry | Failed | TooFarBack

  /** The work left has become less. */
  predicate Less(chunks1: nat, pos1: int, st1: Ctl, chunks0: nat, pos0: int, st0: Ctl)
  {
    || chunks1 < chunks0
    || (chunks1 == chunks0 && pos1 > pos0)
    || (chunks1 == chunks0 && pos1 == pos0 && Rank(st1.mode) < Rank(st0.mode))
    || (chunks1 == chunks0 && pos1 == pos0 && Rank(st1.mode) == Rank(st0.mode) && st1.length < st0.length)
  }

  /** The input that in() will give: it fails when it has none, or an empty piece. */
  function Rest(chunks: seq<seq<byte>>): seq<byte>
  {
    if chunks == [] || chunks[0] == [] then [] else chunks[0] + Rest(chunks[1..])
  }

  function Flat(outs: seq<seq<byte>>): seq<byte>
  {
    if outs == [] then [] else Flat(outs[..|outs| - 1]) + outs[|outs| - 1]
  }

  predicate FullWindows(outs: seq<seq<byte>>)
  {
    forall i :: 0 <= i < |outs| ==> |outs[i]| == WSIZE
  }

  /** What out() is given: full windows, and at last what is left, which is not nothing. */
  predicate Windowfuls(outs: seq<seq<byte>>)
  {
    outs == [] || (FullWindows(outs[..|outs| - 1]) && 0 < |outs[|outs| - 1]| <= WSIZE)
  }

  lemma {:induction false} FullSize(outs: seq<seq<byte>>)
    requires FullWindows(outs)
    ensures |Flat(outs)| == WSIZE * |outs|
  {
    if outs != [] {
      FullSize(outs[..|outs| - 1]);
    }
  }

  /** out() is called no more often than it has to be. */
  lemma FewWindowfuls(outs: seq<seq<byte>>)
    requires Windowfuls(outs)
    ensures |Flat(outs)| <= WSIZE * |outs| && (outs != [] ==> WSIZE * (|outs| - 1) < |Flat(outs)|)
  {
    if outs != [] {
      FullSize(outs[..|outs| - 1]);
    }
  }

  lemma FlatSnoc(outs: seq<seq<byte>>, s: seq<byte>)
    ensures Flat(outs + [s]) == Flat(outs) + s
  {
    assert (outs + [s])[..|outs|] == outs;
  }

  /** The machine with w in front of its output, so that no distance is too far. */
  function Begin(w: seq<byte>): State
  {
    START.(out := w)
  }

  /** One more token; if that is a copy, it reaches back no further than limit. */
  predicate OneMore(toks0: seq<Token>, toks1: seq<Token>, limit: nat)
  {
    && |toks1| == |toks0| + 1 && toks0 <= toks1
    && (toks1[|toks0|].Copy? ==> toks1[|toks0|].distance <= limit)
  }

  class BackInflater {
    const d: Decoder
    /** The window, which put bytes have been written to since it was last handed out. */
    const window: array<byte>
    var put: nat
    var whave: nat
    /** What in() will give, what out() was given, and how many calls of out() succeed. */
    var chunks: seq<seq<byte>>
    var outs: seq<seq<byte>>
    const quota: nat
    /** What was in the window at the start, and that with all that was handed out. */
    ghost const w0: seq<byte>
    ghost var hist: seq<byte>
    /** All input, and whether it was at hand when the call began. */
    ghost const stream: seq<byte>
    ghost const whole: bool

    /** Behind put, the window still holds the end of what was handed out. */
    ghost predicate WindowOk()
      reads `put, `hist, window
    {
      && window.Length == WSIZE && put <= WSIZE <= |hist|
      && forall j :: put <= j < WSIZE ==> window[j] == hist[|hist| - (WSIZE - j)]
    }

    /** All output, with what was in the window before. */
    ghost function Produced(): (h: seq<byte>)
      requires put <= window.Length
      reads `put, `hist, window
    {
      hist + window[..put]
    }

    /** Only full windows have been handed out; whave is exact once there was one, and never too large before. */
    ghost predicate HandedOut()
      reads `put, `whave, `outs, `hist
    {
      && |w0| == WSIZE && hist == w0 + Flat(outs) && whave <= WSIZE
      && (if outs == [] then whave <= put && whave < WSIZE else whave == WSIZE) && FullWindows(outs)
    }

    ghost predicate InputOk()
      reads `chunks, d.r
    {
      d.r.next <= |d.r.input| && d.r.given + d.r.input[d.r.next..] + Rest(chunks) == stream
    }

    /**
     When all input was at hand, a match that inflate_fast does not decode was begun near the end of the input or of the
     window.
     */
    ghost predicate Cramped()
      reads `chunks, `put, d, d.r
    {
      whole ==> chunks == [] && (InPair(d.st.mode) ==> |d.r.input| - d.r.next < 6 || WSIZE - put < 258)
    }

    ghost predicate Inv()
      reads this, d, d.r, window
    {
      && WindowOk() && HandedOut() && InputOk() && d.Inv() && d.abs.out == Produced()
      && Reach(BytesBits(d.r.given), Begin(w0), d.abs) && !d.st.mode.HEAD? && !d.st.mode.DONE?
    }

    lemma Opened()
      requires Inv()
      ensures d.r.Valid() && GoodState(d.abs) && d.Inv() && d.BitsOk() && Matches(d.st, d.abs)
      ensures d.abs.pos == if d.abs.mode.Stored? then Align(d.r.Pos()) else d.r.Pos()
      ensures !d.abs.mode.Bad? ==> d.r.bits <= 24 && Tight(d.r.given, d.abs)
      ensures d.abs.mode.Copying? ==> d.r.bits == 0
      ensures WindowOk() && HandedOut() && InputOk() && window.Length == WSIZE && put <= WSIZE
      ensures d.abs.out == Produced() && |d.abs.out| >= WSIZE && !d.st.mode.HEAD? && !d.st.mode.DONE?
      ensures Reach(BytesBits(d.r.given), Begin(w0), d.abs)
    {
      d.Opened();
    }

    /** inflateBack resets the state and takes the window, the input at hand and the callbacks. */
    constructor (window: array<byte>, next: seq<byte>, chunks: seq<seq<byte>>, quota: nat)
      requires window.Length == WSIZE
      ensures Inv() && fresh(d) && fresh(d.r) && this.window == window && outs == []
      ensures w0 == window[..] && stream == next + Rest(chunks) && this.quota == quota
      ensures Cramped() && whole == (chunks == [])
    {
      var decoder := new Decoder();
      d, this.window := decoder, window;
      put, whave, this.chunks, outs, this.quota := 0, 0, chunks, [], quota;
      w0, hist, stream, whole := window[..], window[..], next + Rest(chunks), chunks == [];
      new;
      hide Inv, WindowOk, HandedOut, InputOk, Decoder.Inv, Rest, Flat;
      d.Reset(next, w0);
      Starts(next);
    }

    lemma Starts(next: seq<byte>)
      requires window.Length == WSIZE && put == 0 == whave && outs == [] && hist == w0 == window[..]
      requires d.Inv() && d.abs == START.(out := w0) && d.st.mode.TYPE?
      requires d.r.given == [] && d.r.input == next && d.r.next == 0 && stream == next + Rest(chunks)
      ensures Inv()
    {
      hide Decoder.Inv, BytesBits, Reach, Rest;
      ReachSelf(BytesBits([]), Begin(w0));
      assert w0 + [] == w0 && window[..0] == [];
      assert [] + next[0..] == next;
    }

    // ---------- input and output ----------

    /** PULL: more input, or false if in() fails. */
    method Pull() returns (ok: bool)
      requires Inv() && d.r.next == |d.r.input|
      modifies `chunks, d.r`input, d.r`next
      ensures Inv() && d.r.given == old(d.r.given) && d.r.Valid() && old(d.r.Valid()) && d.r.Pos() == old(d.r.Pos())
      ensures ok ==> |chunks| < |old(chunks)| && d.r.next < |d.r.input|
      ensures !ok ==> d.r.given == stream && chunks == old(chunks)
      ensures !ok ==> d.r.next == old(d.r.next) && d.r.input == old(d.r.input)
    {
      hide WindowOk, HandedOut, Holds, Matches, GoodState, Tight, Reach, BytesBits, Begin;
      Opened();
      assert d.r.input[d.r.next..] == [];
      if chunks == [] || chunks[0] == [] {
        assert d.r.given + [] + [] == d.r.given;
        return false;
      }
      var next := chunks[0];
      assert d.r.given + [] + (next + Rest(chunks[1..])) == d.r.given + next + Rest(chunks[1..]);
      d.r.input, d.r.next, chunks := next, 0, chunks[1..];
      assert next[0..] == next;
      ok := true;
    }

    /** Hands n bytes of the window out. */
    method Out(n: nat) returns (ok: bool)
      requires n <= window.Length
      modifies `outs
      ensures outs == old(outs) + [window[..n]] && (ok <==> |outs| <= quota)
    {
      outs := outs + [window[..n]];
      ok := |outs| <= quota;
    }

    /** ROOM: hands the window out if it is full; false if out() fails. */
    method Room() returns (ok: bool)
      requires Inv() && |outs| <= quota
      modifies `put, `whave, `outs, `hist
      ensures Inv() && (ok ==> put < WSIZE) && put <= WSIZE && (ok <==> |outs| <= quota)
    {
      hide Holds, Matches, GoodState, Tight, Reach, BytesBits, Begin, InputOk, Decoder.BitsOk, Decoder.Inv, Flat;
      Opened();
      ok := true;
      if put == WSIZE {
        ghost var h := window[..];
        assert window[..put] == h;
        FlatSnoc(outs, h);
        assert w0 + Flat(outs) + h == w0 + (Flat(outs) + h);
        put := 0;
        whave := WSIZE;
        ok := Out(WSIZE);
        hist := hist + h;
        assert hist + window[..0] == hist;
      }
    }

    method PutByte(b: byte)
      requires WindowOk() && put < window.Length
      modifies window, `put
      ensures WindowOk() && put == old(put) + 1 && Produced() == old(Produced()) + [b]
    {
      ghost var was := window[..put];
      window[put] := b;
      put := put + 1;
      assert window[..put] == was + [b];
      assert hist + (was + [b]) == hist + was + [b];
    }

    /** The output of this round comes on top of what was there. */
    lemma Written(put0: nat)
      requires put0 <= put && (if outs == [] then whave <= put0 && whave < WSIZE else whave == WSIZE)
      requires |w0| == WSIZE && hist == w0 + Flat(outs) && whave <= WSIZE && FullWindows(outs)
      ensures HandedOut()
    {
    }

    // ---------- one run over the stream ----------

    /** The decoder has moved on. */
    lemma StillOneRun(given0: seq<byte>, next0: nat, a0: State)
      requires d.Moved(given0, next0, a0) && Reach(BytesBits(given0), Begin(w0), a0)
      ensures Reach(BytesBits(d.r.given), Begin(w0), d.abs)
    {
      hide Reach, Begin;
      var more := d.r.given[|given0|..];
      assert d.r.given == given0 + more;
      BytesBitsAppend(given0, more);
      BeginGood(w0);
      ReachLonger(BytesBits(given0), BytesBits(more), Begin(w0), a0);
      ReachTrans(BytesBits(d.r.given), Begin(w0), a0, d.abs);
    }

    /** The input that was not taken is still there. */
    lemma StillInput(given0: seq<byte>, input: seq<byte>, next0: nat, rest: seq<byte>)
      requires d.r.input == input && rest == Rest(chunks) && next0 <= |input|
      requires given0 + input[next0..] + rest == stream
      requires next0 <= d.r.next <= |input| && d.r.given == given0 + input[next0..d.r.next]
      ensures InputOk()
    {
      assert input[next0..] == input[next0..d.r.next] + input[d.r.next..];
      assert given0 + (input[next0..d.r.next] + input[d.r.next..]) + rest == d.r.given + input[d.r.next..] + rest;
    }

    // ---------- the modes that only read ----------

    predicate Reads(m: IMode)
    {
      m.TYPE? || m.STORED? || m.TABLE? || m.LENLENS? || m.CODELENS? || m.LEN? || m.LENEXT? || m.DIST?
    }

    /** One step of the decoder; when the input at hand runs out, it stops inside the step. */
    method TurnReading() returns (leave: bool)
      requires Inv() && Reads(d.st.mode)
      modifies d.r`hold, d.r`bits, d.r`next, d.r`given, d`st, d`abs
      ensures Inv() && d.r.Valid() && old(d.r.Valid())
      ensures leave ==> d.Starved()
      ensures !leave ==> d.r.Pos() >= old(d.r.Pos()) && d.r.next >= old(d.r.next)
      ensures !leave && InPair(d.st.mode) ==> InPair(old(d.st.mode)) || old(d.st.mode).LEN?
      ensures !leave ==> d.r.Pos() > old(d.r.Pos()) || Rank(d.st.mode) < old(Rank(d.st.mode))
    {
      hide WindowOk, Decoder.BitsOk, Decoder.Moved, Decoder.Starved, Tight, Needed, GoodState, Goes, Matches, Num,
           Reach, Align, Next, Holds, BytesBits, Low, Shr, Pow2, FixedCodes, TablesFor, Decode, DecodeLength,
           Acceptable, IsTable, NoLonger, ValidLens, Means, JustEnough, CopyBytes, Begin;
      Opened();
      d.Kind();
      ghost var given0, next0, a0, input := d.r.given, d.r.next, d.abs, d.r.input;
      leave := false;
      match d.st.mode {
        case TYPE => leave := d.DoType();
        case STORED => leave := d.DoStored();
        case TABLE => leave := d.DoTable();
        case LENLENS => leave := d.DoLenLens();
        case CODELENS => leave := d.DoCodeLens();
        case LEN => leave := d.DoLen();
        case LENEXT => leave := d.DoLenExt();
        case DIST => leave := d.DoDist();
      }
      d.MovedParts(given0, next0, a0);
      StillOneRun(given0, next0, a0);
      StillInput(given0, input, next0, Rest(chunks));
      d.Opened();
    }

    /** The distance is checked against what has been written, or against the window once that has been full. */
    method TurnDistance() returns (leave: bool, far: bool, ghost offset: nat)
      requires Inv() && d.st.mode.DISTEXT?
      modifies d.r`hold, d.r`bits, d.r`next, d.r`given, d`st, d`abs
      ensures !far ==> Inv()
      ensures leave ==> !far && d.Starved()
      ensures d.r.Valid() && old(d.r.Valid())
      ensures !leave && !far ==> d.r.Pos() >= old(d.r.Pos()) && d.st.mode.MATCH?
      ensures !leave && !far ==> d.st.offset <= if whave < WSIZE then put else WSIZE
      ensures far ==> TooFar(offset) && d.abs == old(d.abs)
    {
      hide WindowOk, Decoder.BitsOk, Decoder.Moved, Decoder.Starved, Tight, Needed, GoodState, Goes, Matches, Num,
           Reach, Align, Next, Holds, BytesBits, Low, Shr, Pow2, FixedCodes, TablesFor, Decode, DecodeLength,
           Acceptable, IsTable, NoLonger, ValidLens, Means, JustEnough, CopyBytes, Begin;
      Opened();
      d.Kind();
      ghost var given0, next0, a0, input := d.r.given, d.r.next, d.abs, d.r.input;
      var left := WSIZE - put;
      var limit := WSIZE - if whave < WSIZE then left else 0;
      WithinLimit(limit);
      leave, far, offset := d.DoDistExt(limit);
      if far {
        ReachSelf(d.r.Stream(), d.abs);
        StillFar(given0, next0, a0, input, limit, offset);
      } else {
        d.MovedParts(given0, next0, a0);
        StillOneRun(given0, next0, a0);
        StillInput(given0, input, next0, Rest(chunks));
        d.Opened();
      }
    }

    /** The next distance in the stream reaches back before the first byte of output. */
    ghost predicate TooFar(offset: nat)
      reads this, d, d.r, window
    {
      && d.r.next <= |d.r.input| && d.r.given + d.r.input[d.r.next..] + Rest(chunks) == stream
      && d.Offset(BytesBits(d.r.given), offset) && |d.abs.out| < WSIZE + offset && |w0| == WSIZE
      && Reach(BytesBits(d.r.given), Begin(w0), d.abs) && FullWindows(outs)
    }

    lemma WithinLimit(limit: nat)
      requires HandedOut() && WindowOk() && limit == WSIZE - if whave < WSIZE then WSIZE - put else 0
      ensures limit <= WSIZE && (|Produced()| - WSIZE <= limit || limit == WSIZE)
    {
    }

    lemma StillFar(given0: seq<byte>, next0: nat, a0: State, input: seq<byte>, limit: nat, offset: nat)
      requires d.Rejecting(given0, next0, limit, offset) && d.abs == a0 && Reach(BytesBits(given0), Begin(w0), a0)
      requires d.r.input == input && next0 <= |input| && given0 + input[next0..] + Rest(chunks) == stream
      requires |w0| == WSIZE && (|a0.out| - WSIZE <= limit || limit == WSIZE)
      requires FullWindows(outs)
      ensures TooFar(offset)
    {
      hide Reach, Begin, Num, GoodState, Tight, Needed, Holds;
      var more := d.r.given[|given0|..];
      assert d.r.given == given0 + more;
      BytesBitsAppend(given0, more);
      BeginGood(w0);
      ReachLonger(BytesBits(given0), BytesBits(more), Begin(w0), a0);
      StillInput(given0, input, next0, Rest(chunks));
    }

    // ---------- output ----------

    /** The machine goes on to b, producing output. */
    ghost method Jump(b: State, given0: seq<byte>)
      requires d.r.Valid() && GoodState(d.abs) && Reach(BytesBits(given0), Begin(w0), d.abs) && given0 <= d.r.given
      requires Reach(d.r.Stream(), d.abs, b) && !b.mode.Stored? && !b.mode.Bad?
      requires b.pos == d.r.Pos() && d.r.bits < 8 && (b.mode.Copying? ==> d.r.bits == 0)
      requires WindowOk() && HandedOut() && InputOk() && b.out == Produced() && Matches(d.st, b)
      requires !d.st.mode.HEAD? && !d.st.mode.DONE?
      modifies d`abs
      ensures d.abs == b && Inv()
    {
      hide GoodState, Reach, Matches, HandedOut, WindowOk, InputOk, Begin;
      ghost var more := d.r.given[|given0|..];
      assert d.r.given == given0 + more;
      BytesBitsAppend(given0, more);
      BeginGood(w0);
      ReachLonger(BytesBits(given0), BytesBits(more), Begin(w0), d.abs);
      ReachTrans(d.r.Stream(), Begin(w0), d.abs, b);
      ReachGood(d.r.Stream(), d.abs, b);
      d.abs := b;
    }

    lemma OutputAgrees()
      requires Matches(d.st, d.abs) && GoodState(d.abs)
      ensures d.st.mode.MATCH? ==> d.st.length >= 1 && 1 <= d.st.offset <= |d.abs.out| && d.st.offset <= 32768
      ensures d.st.mode.LIT? ==> d.st.length < 256
      ensures d.st.mode.COPY? ==> d.abs.mode == Copying(d.st.length)
    {
    }

    /** A literal byte. */
    method TurnLiteral() returns (ok: bool)
      requires Inv() && d.st.mode.LIT? && |outs| <= quota
      modifies window, `put, `whave, `outs, `hist, d`st, d`abs
      ensures Inv() && (ok ==> d.st.mode.LEN?) && (ok <==> |outs| <= quota)
    {
      hide WindowOk, Decoder.BitsOk, Decoder.Moved, Decoder.Starved, Tight, Needed, GoodState, Goes, Matches, Num,
           Reach, Align, Next, Holds, BytesBits, Low, Shr, Pow2, FixedCodes, TablesFor, Decode, DecodeLength,
           Acceptable, IsTable, NoLonger, ValidLens, Means, JustEnough, CopyBytes, Begin;
      hide InputOk, Flat;
      ok := Room();
      if !ok {
        return;
      }
      Opened();
      d.Kind();
      OutputAgrees();
      OutputTight(d.r.given, d.abs);
      ghost var b := LitGoes(d.r.Stream(), d.abs, d.st);
      ghost var put0 := put;
      PutByte(d.st.length);
      Written(put0);
      d.st := d.st.(mode := LEN);
      Jump(b, d.r.given);
    }

    /** Where the next n bytes of a copy with the given distance are: behind put, or before. */
    ghost predicate Points(inWindow: bool, from: nat, offset: nat, n: nat)
      reads `put
    {
      n == 0 ||
      if inWindow then put < offset <= WSIZE && n <= offset - put && from == WSIZE - (offset - put)
      else offset <= put && from == put - offset
    }

    /** One byte of a copy. */
    method CopyByte(inWindow: bool, from: nat, ghost n: nat, ghost h: seq<byte>, ghost i: nat, ghost offset: nat)
      requires WindowOk() && put < window.Length && n >= 1 && Points(inWindow, from, offset, n)
      requires 1 <= offset <= |h| && offset <= WSIZE && Produced() == CopyBytes(h, i, offset)
      modifies window, `put
      ensures WindowOk() && put == old(put) + 1 && put <= WSIZE && Points(inWindow, from + 1, offset, n - 1)
      ensures Produced() == CopyBytes(h, i + 1, offset)
    {
      hide CopyBytes;
      CopySnoc(h, i, offset);
      assert from < WSIZE;
      if inWindow {
        assert window[from] == hist[|hist| - (WSIZE - from)];
        assert Produced()[|Produced()| - offset] == hist[|hist| - (WSIZE - from)];
      } else {
        assert Produced()[|Produced()| - offset] == window[..put][put - offset];
      }
      PutByte(window[from]);
    }

    /** do { *put++ = *from++; } while (--copy). */
    method CopySome(inWindow: bool, from0: nat, copy0: nat, ghost h: seq<byte>, ghost i0: nat, ghost offset: nat)
      requires WindowOk() && 1 <= copy0 <= window.Length - put && Points(inWindow, from0, offset, copy0)
      requires 1 <= offset <= |h| && offset <= WSIZE && Produced() == CopyBytes(h, i0, offset)
      modifies window, `put
      ensures WindowOk() && put == old(put) + copy0 && put <= WSIZE && Produced() == CopyBytes(h, i0 + copy0, offset)
    {
      hide CopyBytes, Points, WindowOk;
      var from, copy := from0, copy0;
      ghost var i := i0;
      while true
        invariant 1 <= copy <= copy0 && i == i0 + copy0 - copy && put == old(put) + copy0 - copy
        invariant copy <= window.Length - put
        invariant WindowOk() && Points(inWindow, from, offset, copy) && Produced() == CopyBytes(h, i, offset)
        decreases copy
      {
        CopyByte(inWindow, from, copy, h, i, offset);
        from := from + 1;
        copy := copy - 1;
        i := i + 1;
        if copy == 0 {
          break;
        }
      }
    }

    /** Where a pass of a copy reads from, and how many bytes it can take. */
    method Source(offset: nat, length: nat) returns (inWindow: bool, from: nat, copy: nat)
      requires put < WSIZE && 1 <= offset <= WSIZE && length >= 1
      ensures 1 <= copy <= length && copy <= WSIZE - put && Points(inWindow, from, offset, copy)
    {
      var left := WSIZE - put;
      copy := WSIZE - offset;
      if copy < left {
        inWindow, from := true, put + copy;
        copy := left - copy;
      } else {
        inWindow, from := false, put - offset;
        copy := left;
      }
      if copy > length {
        copy := length;
      }
    }

    /** One pass of the copy of a match: to the end of the window at most. */
    method TurnMatch() returns (ok: bool)
      requires Inv() && d.st.mode.MATCH? && |outs| <= quota
      modifies window, `put, `whave, `outs, `hist, d`st, d`abs
      ensures Inv() && (ok ==> d.st.mode.LEN? || (d.st.mode.MATCH? && d.st.length < old(d.st.length)))
      ensures ok <==> |outs| <= quota
    {
      hide WindowOk, Decoder.BitsOk, Decoder.Moved, Decoder.Starved, Tight, Needed, GoodState, Goes, Matches, Num,
           Reach, Align, Next, Holds, BytesBits, Low, Shr, Pow2, FixedCodes, TablesFor, Decode, DecodeLength,
           Acceptable, IsTable, NoLonger, ValidLens, Means, JustEnough, CopyBytes, Begin;
      hide InputOk, Flat, Points;
      ok := Room();
      if !ok {
        return;
      }
      Opened();
      d.Kind();
      OutputAgrees();
      OutputTight(d.r.given, d.abs);
      var inWindow, from, copy := Source(d.st.offset, d.st.length);
      ghost var b := MatchGoes(d.r.Stream(), d.abs, d.st, copy);
      ghost var h, put0 := d.abs.out, put;
      assert CopyBytes(h, 0, d.st.offset) == h by { CopyNothing(h, d.st.offset); }
      CopySome(inWindow, from, copy, h, 0, d.st.offset);
      Written(put0);
      d.st := d.st.(length := d.st.length - copy);
      if d.st.length == 0 {
        d.st := d.st.(mode := LEN);
      }
      Jump(b, d.r.given);
    }

    /** zmemcpy from the input. */
    method CopyInput(copy: nat, ghost h: seq<byte>)
      requires WindowOk() && copy <= window.Length - put && d.r.next + copy <= |d.r.input| && h == Produced()
      modifies window, `put
      ensures WindowOk() && put == old(put) + copy && Produced() == h + d.r.input[d.r.next..d.r.next + copy]
    {
      hide WindowOk;
      assert h + [] == h;
      for i := 0 to copy
        invariant WindowOk() && put == old(put) + i && Produced() == h + d.r.input[d.r.next..d.r.next + i]
      {
        PutByte(d.r.input[d.r.next + i]);
        assert d.r.input[d.r.next..d.r.next + i + 1]
            == d.r.input[d.r.next..d.r.next + i] + [d.r.input[d.r.next + i]];
      }
    }

    /** One pass of the copy of a stored block, as far as input and window go; or its end. */
    method TurnCopy() returns (ok: bool, dry: bool)
      requires Inv() && d.st.mode.COPY? && |outs| <= quota
      modifies window, `put, `whave, `outs, `hist, `chunks
      modifies d.r`hold, d.r`bits, d.r`next, d.r`given, d.r`input, d`st, d`abs
      ensures Inv() && d.r.Valid() && old(d.r.Valid()) && |chunks| <= |old(chunks)|
      ensures ok ==> |outs| <= quota && (d.st.mode.COPY? || d.st.mode.TYPE?)
      ensures ok ==> (d.r.Pos() > old(d.r.Pos()) || (d.r.Pos() == old(d.r.Pos()) && d.st.mode.TYPE?))
      ensures !ok ==> (dry && d.Starved() && d.r.given == stream) || (!dry && |outs| > quota)
    {
      hide WindowOk, Decoder.BitsOk, Decoder.Moved, Decoder.Starved, Tight, Needed, GoodState, Goes, Matches, Num,
           Reach, Align, Next, Holds, BytesBits, Low, Shr, Pow2, FixedCodes, TablesFor, Decode, DecodeLength,
           Acceptable, IsTable, NoLonger, ValidLens, Means, JustEnough, CopyBytes, Begin;
      hide InputOk, Flat;
      Opened();
      d.Kind();
      OutputAgrees();
      dry := false;
      if d.st.length == 0 {
        EndCopy();
        return true, false;
      }
      if d.r.next == |d.r.input| {
        ok := Pull();
        if !ok {
          NoByte();
          return false, true;
        }
      }
      ok := Room();
      if !ok {
        return false, false;
      }
      CopyPiece();
    }

    /** A stored block has been copied. */
    method EndCopy()
      requires Inv() && d.st.mode.COPY? && d.st.length == 0
      modifies d`st, d`abs
      ensures Inv() && d.st.mode.TYPE?
    {
      hide WindowOk, Decoder.BitsOk, Decoder.Moved, Decoder.Starved, Tight, Needed, GoodState, Goes, Matches, Num,
           Reach, Align, Next, Holds, BytesBits, Low, Shr, Pow2, FixedCodes, TablesFor, Decode, DecodeLength,
           Acceptable, IsTable, NoLonger, ValidLens, Means, JustEnough, CopyBytes, Begin;
      Opened();
      d.Kind();
      OutputAgrees();
      ghost var given0, next0, a0, input := d.r.given, d.r.next, d.abs, d.r.input;
      ghost var b := CopyEnds(d.r.Stream(), d.abs, d.st);
      d.st := d.st.(mode := TYPE);
      NothingNeeded(given0, d.abs);
      NothingRead(given0, input, next0);
      d.Step(b, given0, next0);
      StillOneRun(given0, next0, a0);
    }

    /** As much of a stored block as input and window allow. */
    method CopyPiece()
      requires Inv() && d.st.mode.COPY? && d.st.length > 0 && put < WSIZE && d.r.next < |d.r.input|
      modifies window, `put, d.r`hold, d.r`bits, d.r`next, d.r`given, d`st, d`abs
      ensures Inv() && d.r.Valid() && old(d.r.Valid()) && d.r.Pos() > old(d.r.Pos()) && d.st.mode.COPY?
    {
      hide Inv;
      var copy := d.st.length;
      if copy > |d.r.input| - d.r.next {
        copy := |d.r.input| - d.r.next;
      }
      if copy > WSIZE - put {
        copy := WSIZE - put;
      }
      CopyBytesOf(copy);
    }

    /** copy bytes of a stored block. */
    method CopyBytesOf(copy: nat)
      requires Inv() && d.st.mode.COPY? && 1 <= copy <= d.st.length && copy <= WSIZE - put
      requires d.r.next + copy <= |d.r.input|
      modifies window, `put, d.r`hold, d.r`bits, d.r`next, d.r`given, d`st, d`abs
      ensures Inv() && d.r.Valid() && old(d.r.Valid()) && d.r.Pos() > old(d.r.Pos()) && d.st.mode.COPY?
    {
      hide WindowOk, Decoder.BitsOk, Decoder.Moved, Decoder.Starved, Tight, Needed, GoodState, Goes, Matches, Num,
           Reach, Align, Next, Holds, BytesBits, Low, Shr, Pow2, FixedCodes, TablesFor, Decode, DecodeLength,
           Acceptable, IsTable, NoLonger, ValidLens, Means, JustEnough, CopyBytes, Begin;
      hide Flat;
      Opened();
      d.Kind();
      OutputAgrees();
      ghost var given0, next0, a0, input, put0 := d.r.given, d.r.next, d.abs, d.r.input, put;
      ghost var data := d.r.input[d.r.next..d.r.next + copy];
      CopyInput(copy, Produced());
      Written(put0);
      d.r.TakeBytes(copy);
      TakenAt(given0, data);
      StillInput(given0, input, next0, Rest(chunks));
      ghost var b := CopyGoes(d.r.Stream(), d.abs, d.st, data);
      d.st := d.st.(length := d.st.length - copy);
      Jump(b, given0);
    }

    /** There is no more input for the next byte of a stored block. */
    lemma NoByte()
      requires Inv() && d.st.mode.COPY? && d.st.length > 0 && d.r.next == |d.r.input|
      ensures d.Starved()
    {
      Opened();
      OutputAgrees();
      NoByteYet(d.r.Stream(), d.abs);
    }

    // ---------- inflate_fast, with the window as its output ----------

    /** The rest of a match, three bytes at a time. */
    method FastRest(inWindow: bool, from0: nat, len0: nat, ghost h: seq<byte>, ghost i0: nat, ghost offset: nat)
      requires WindowOk() && len0 <= window.Length - put && Points(inWindow, from0, offset, len0)
      requires 1 <= offset <= |h| && offset <= WSIZE && Produced() == CopyBytes(h, i0, offset)
      modifies window, `put
      ensures WindowOk() && put == old(put) + len0 && Produced() == CopyBytes(h, i0 + len0, offset)
    {
      hide CopyBytes, Points, WindowOk;
      var from: nat, len: nat := from0, len0;
      ghost var i := i0;
      while len > 2
        invariant len <= len0 && i == i0 + len0 - len && put == old(put) + len0 - len && len <= window.Length - put
        invariant WindowOk() && Points(inWindow, from, offset, len) && Produced() == CopyBytes(h, i, offset)
      {
        CopyByte(inWindow, from, len, h, i, offset);
        CopyByte(inWindow, from + 1, len - 1, h, i + 1, offset);
        CopyByte(inWindow, from + 2, len - 2, h, i + 2, offset);
        from := from + 3;
        i := i + 3;
        len := len - 3;
      }
      if len != 0 {
        CopyByte(inWindow, from, len, h, i, offset);
        if len > 1 {
          CopyByte(inWindow, from + 1, len - 1, h, i + 1, offset);
        }
      }
    }

    /** The copy of a match: from the end of the window and on into the output, or from the output alone. */
    method FastCopy(len0: nat, dist: nat, ghost h: seq<byte>)
      requires WindowOk() && 3 <= len0 <= window.Length - put && 1 <= dist <= WSIZE && h == Produced() && dist <= |h|
      modifies window, `put
      ensures WindowOk() && put == old(put) + len0 && Produced() == CopyBytes(h, len0, dist)
    {
      hide CopyBytes, WindowOk;
      assert CopyBytes(h, 0, dist) == h by { CopyNothing(h, dist); }
      var len := len0;
      ghost var i := 0;
      var op := put;
      if dist > op {
        op := dist - op;
        var inWindow, from := true, WSIZE - op;         // the field write stays 0
        if op < len {
          len := len - op;
          CopySome(true, from, op, h, i, dist);
          i := i + op;
          inWindow, from := false, put - dist;
        }
        FastRest(inWindow, from, len, h, i, dist);
      } else {
        FastRest(false, put - dist, len, h, i, dist);
      }
    }

    /** Between two symbols of inflate_fast. */
    ghost predicate FastReady(c: Codes, given0: seq<byte>, next0: nat, a0: State)
      reads d, d.r, `put, `hist, window
    {
      d.FastIn(c, given0, next0, a0) && WindowOk() && d.abs.out == Produced()
    }

    /** Behind the last symbol. */
    ghost predicate FastOver(given0: seq<byte>, next0: nat, a0: State)
      reads d, d.r, `put, `hist, window
    {
      d.FastOut(given0, next0, a0) && WindowOk() && d.abs.out == Produced()
    }

    /** A distance that reaches behind what has been written of the window by more than whave. */
    ghost predicate FastFar(dist: nat, c: Codes, given0: seq<byte>, next0: nat, a0: State)
      reads this, d, d.r, window
    {
      && d.Fast(given0, next0, a0) && d.r.Valid() && d.Offset(d.r.Stream(), dist) && dist > put + whave
      && d.r.Pos() == d.abs.pos + d.abs.mode.extra
      && WindowOk() && d.abs.out == Produced() && d.abs.mode.c == c
    }

    /** A literal. */
    method FastLiteral(b: byte, ghost c: Codes, ghost given0: seq<byte>, ghost next0: nat, ghost a0: State)
      requires d.Fast(given0, next0, a0) && d.abs.mode == Lit(c, b) && d.r.bits <= 8 * |d.r.given|
      requires d.abs.pos == d.r.Pos() && d.abs.last == a0.last
      requires d.FastTables(c) && WindowOk() && d.abs.out == Produced() && put < WSIZE
      modifies window, `put, d`abs
      ensures FastReady(c, given0, next0, a0) && put == old(put) + 1 && d.abs.toks == old(d.abs).toks + [Literal(b)]
    {
      hide WindowOk, Decoder.BitsOk, Decoder.Moved, Decoder.Starved, Tight, Needed, GoodState, Goes, Matches, Num,
           Reach, Align, Next, Holds, BytesBits, Low, Shr, Pow2, FixedCodes, TablesFor, Decode, DecodeLength,
           Acceptable, IsTable, NoLonger, ValidLens, Means, JustEnough, CopyBytes, Begin;
      hide Decoder.FastTables;
      Sizes();
      PutByte(b);
      ghost var a1 := d.abs.(mode := Len(c), out := Produced(), toks := d.abs.toks + [Literal(b)]);
      LitNext(d.r.Stream(), d.abs);
      FastFurther(d.r.Stream(), a0, d.abs, a1);
      d.abs := a1;
    }

    /** The copy of a match, as one step of the run. */
    method FastMatched(len: nat, dist: nat, ghost c: Codes, ghost given0: seq<byte>, ghost next0: nat, ghost a0: State)
      requires d.Fast(given0, next0, a0) && d.abs.mode == Match(c, len, dist) && d.r.Valid() && d.abs.pos == d.r.Pos()
      requires d.abs.last == a0.last
      requires 3 <= len <= window.Length - put && WindowOk() && d.FastTables(c) && d.abs.out == Produced()
      modifies window, `put, d`abs
      ensures FastReady(c, given0, next0, a0) && put == old(put) + len && d.abs.toks == old(d.abs).toks
    {
      hide WindowOk, Decoder.BitsOk, Decoder.Moved, Decoder.Starved, Tight, Needed, GoodState, Goes, Matches, Num,
           Reach, Align, Next, Holds, BytesBits, Low, Shr, Pow2, FixedCodes, TablesFor, Decode, DecodeLength,
           Acceptable, IsTable, NoLonger, ValidLens, Means, JustEnough, CopyBytes, Begin;
      hide Decoder.FastTables;
      FastBounds(d.abs);
      FastMatch(d.r.Stream(), a0, d.abs);
      FastCopy(len, dist, d.abs.out);
      d.abs := d.abs.(mode := Len(c), out := Produced());
    }

    /** A length, a distance and the copy. */
    method FastPair(e0: Entry, ghost c: Codes, ghost given0: seq<byte>, ghost next0: nat, ghost a0: State)
      returns (t: Turned, ghost offset: nat)
      requires d.Fast(given0, next0, a0) && d.abs.mode == LenExt(c, e0.val, e0.op % 16) && d.r.Valid()
      requires d.abs.pos == d.r.Pos() && d.abs.last == a0.last && d.FastTables(c)
      requires WindowOk() && d.abs.out == Produced() && 258 <= WSIZE - put
      requires 8 * (|d.r.input| - d.r.next) + d.r.bits >= 33
      modifies d.r`hold, d.r`bits, d.r`next, d.r`given, window, `put, d`abs
      ensures t.Go? ==> FastReady(c, given0, next0, a0) && put > old(put)
      ensures t.Go? ==> OneMore(old(d.abs).toks, d.abs.toks, old(put) + whave)
      ensures t.Over? ==> FastOver(given0, next0, a0) && d.abs.mode.Bad? && put >= old(put)
      ensures t.Far? ==> FastFar(offset, c, given0, next0, a0) && put == old(put) && d.abs.pos >= old(d.r.Pos())
      ensures d.r.Valid() && old(d.r.Valid()) && d.r.Pos() >= old(d.r.Pos())
    {
      hide WindowOk, Decoder.BitsOk, Decoder.Moved, Decoder.Starved, Tight, Needed, GoodState, Goes, Matches, Num,
           Reach, Align, Next, Holds, BytesBits, Low, Shr, Pow2, FixedCodes, TablesFor, Decode, DecodeLength,
           Acceptable, IsTable, NoLonger, ValidLens, Means, JustEnough, CopyBytes, Begin;
      hide Decoder.Fast, Decoder.FastTables;
      offset := 0;
      var len, e := d.FastDistCode(e0, c, given0, next0, a0);
      if e.op / 16 % 2 == 1 {
        var dist := d.FastOffset(e, len, c, given0, next0, a0);
        offset := dist;
        if dist > put {
          if dist - put > whave {
            return Far, dist;
          }
        }
        LongEnough(dist);
        Sizes();
        d.FastDecide(dist, given0, next0, a0);
        FastMatched(len, dist, c, given0, next0, a0);
        t := Go;
      } else {
        t := Over;
      }
    }

    lemma Sizes()
      requires WindowOk()
      ensures window.Length == WSIZE && put <= WSIZE
    {
    }

    /** There is always enough before, if what was in the window at the start is counted. */
    lemma LongEnough(dist: nat)
      requires WindowOk() && d.abs.out == Produced() && d.Offset(d.r.Stream(), dist)
      ensures dist <= |d.abs.out| && dist <= WSIZE
    {
    }

    /** One turn of the loop of inflate_fast: a literal, a match, or the end of the block. */
    method FastTurn(ghost c: Codes, ghost given0: seq<byte>, ghost next0: nat, ghost a0: State)
      returns (t: Turned, ghost offset: nat)
      requires FastReady(c, given0, next0, a0) && |d.r.input| - d.r.next >= 6 && WSIZE - put >= 258
      requires d.st.mode.LEN?
      modifies d.r`hold, d.r`bits, d.r`next, d.r`given, window, `put, d`st, d`abs
      ensures t.Go? ==> FastReady(c, given0, next0, a0) && put > old(put) && d.st == old(d.st)
      ensures t.Go? ==> OneMore(old(d.abs).toks, d.abs.toks, old(put) + whave)
      ensures t.Over? ==> FastOver(given0, next0, a0) && put >= old(put)
      ensures t.Over? ==> d.st == old(d.st).(mode := if d.abs.mode.Type? then TYPE else BAD)
      ensures t.Far? ==> FastFar(offset, c, given0, next0, a0) && put == old(put) && d.abs.pos > old(d.r.Pos())
      ensures d.r.Valid() && old(d.r.Valid()) && d.r.Pos() > old(d.r.Pos())
    {
      hide WindowOk, Decoder.BitsOk, Decoder.Moved, Decoder.Starved, Tight, Needed, GoodState, Goes, Matches, Num,
           Reach, Align, Next, Holds, BytesBits, Low, Shr, Pow2, FixedCodes, TablesFor, Decode, DecodeLength,
           Acceptable, IsTable, NoLonger, ValidLens, Means, JustEnough, CopyBytes, Begin;
      hide Decoder.Fast, Decoder.FastTables;
      offset := 0;
      d.FastParts(given0, next0, a0);
      var e := d.FastSymbol(c, given0, next0, a0);
      if e.op == 0 {
        FastLiteral(e.val, c, given0, next0, a0);
        d.FastParts(given0, next0, a0);
        t := Go;
      } else if e.op / 16 % 2 == 1 {
        t, offset := FastPair(e, c, given0, next0, a0);
        if !t.Go? {
          d.st := d.st.(mode := BAD);
        }
      } else if e.op / 32 % 2 == 1 {
        d.st := d.st.(mode := TYPE);
        t := Over;
      } else {
        d.st := d.st.(mode := BAD);
        t := Over;
      }
    }

    lemma FastGoesOn(t: Turned, c: Codes, given0: seq<byte>, next0: nat, a0: State)
      requires t.Go? ==> FastReady(c, given0, next0, a0)
      requires t.Over? ==> FastOver(given0, next0, a0)
      ensures !t.Far? ==> put <= WSIZE && WindowOk() && d.abs.out == Produced()
      ensures t.Go? ==> d.FastIn(c, given0, next0, a0)
      ensures t.Over? ==> d.FastOut(given0, next0, a0)
    {
      hide Decoder.Fast, Decoder.FastIn, Decoder.FastOut;
    }

    /** The loop of inflate_fast. */
    method FastLoop(ghost c: Codes, ghost given0: seq<byte>, ghost next0: nat, ghost a0: State)
      returns (t: Turned, ghost offset: nat)
      requires FastReady(c, given0, next0, a0) && d.st.mode.LEN? && d.abs == a0
      requires |d.r.input| - d.r.next >= 6 && WSIZE - put >= 258
      modifies d.r`hold, d.r`bits, d.r`next, d.r`given, window, `put, d`st, d`abs
      ensures d.r.Valid() && old(d.r.Valid()) && d.r.Pos() > old(d.r.Pos()) && d.abs.pos > a0.pos && put >= old(put)
      ensures t.Far? ==> FastFar(offset, c, given0, next0, a0)
      ensures !t.Far? ==> put <= WSIZE && WindowOk() && d.abs.out == Produced()
      ensures t.Go? ==> d.FastIn(c, given0, next0, a0) && d.st == old(d.st)
      ensures t.Over? ==> d.FastOut(given0, next0, a0)
      ensures t.Over? ==> d.st == old(d.st).(mode := if d.abs.mode.Type? then TYPE else BAD)
    {
      hide WindowOk, Decoder.Fast, FastReady, FastOver, FastFar, Decoder.FastIn, Decoder.FastOut, Holds, BytesBits;
      ghost var total, put0, st0 := 8 * |d.r.input| + 8 * (|given0| - next0), put, d.st;
      t, offset := Go, 0;
      FastGoesOn(Go, c, given0, next0, a0);
      d.FastMore(true, c, given0, next0, a0);
      while true
        invariant FastReady(c, given0, next0, a0) && d.st == st0 && put0 <= put
        invariant |d.r.input| - d.r.next >= 6 && WSIZE - put >= 258
        invariant d.r.Valid() && d.r.Pos() >= a0.pos && |d.r.given| - |given0| == d.r.next - next0
        decreases total - d.r.Pos()
      {
        t, offset := FastTurn(c, given0, next0, a0);
        if t.Far? {
          return;
        }
        FastGoesOn(t, c, given0, next0, a0);
        d.FastMore(t.Go?, c, given0, next0, a0);
        if !(t.Go? && |d.r.input| - d.r.next > 5 && WSIZE - put > 257) {
          return;
        }
      }
    }

    /** A distance was too far: the bytes behind it go back to the input. */
    method FastReject(ghost offset: nat, ghost c: Codes, ghost given0: seq<byte>, ghost next0: nat, ghost a0: State,
                      ghost put0: nat)
      requires FastFar(offset, c, given0, next0, a0) && HandedOut() && put0 <= put && put0 <= whave
      requires |a0.out| == |hist| + put0 && a0.pos < d.abs.pos && Tight(given0, a0) && a0.mode == Len(c)
      requires Reach(BytesBits(given0), Begin(w0), a0) && next0 <= |d.r.input|
      requires given0 + d.r.input[next0..] + Rest(chunks) == stream
      modifies d.r`hold, d.r`bits, d.r`next, d.r`given
      ensures TooFar(offset) && Firm(offset)
    {
      hide WindowOk, Decoder.Moved, Tight, GoodState, Num, Reach, Next, Holds, BytesBits, Begin, Decoder.Fast, FastFar,
           TooFar, Firm, Flat;
      FastEnds(offset, c, given0, next0, a0, put0);
      d.FastLeave(offset, given0, next0, a0);
      StillFast(offset, given0, next0, a0, d.r.input);
      StillFirm(offset, c, given0, next0, a0);
    }

    /**
     inflate_fast: decodes symbols while there are 6 bytes of input and room for 258 bytes. A distance is only checked
     against what has been written and whave.
     */
    method InflateFast() returns (far: bool, ghost offset: nat)
      requires Inv() && d.st.mode.LEN? && |d.r.input| - d.r.next >= 6 && WSIZE - put >= 258 && whave >= put
      modifies d.r`hold, d.r`bits, d.r`next, d.r`given, window, `put, d`st, d`abs
      ensures !far ==> Inv() && d.r.Valid() && old(d.r.Valid()) && d.r.Pos() > old(d.r.Pos())
      ensures !far ==> !InPair(d.st.mode)
      ensures far ==> TooFar(offset) && Firm(offset)
    {
      hide WindowOk, Decoder.BitsOk, Decoder.Moved, Decoder.Starved, Tight, Needed, GoodState, Goes, Matches, Num,
           Reach, Align, Next, Holds, BytesBits, Low, Shr, Pow2, FixedCodes, TablesFor, Decode, DecodeLength,
           Acceptable, IsTable, NoLonger, ValidLens, Means, JustEnough, CopyBytes, Begin;
      hide Decoder.Fast, FastReady, FastFar, Decoder.FastIn, Decoder.FastOut, TooFar, Firm, Flat;
      Opened();
      d.Kind();
      ghost var given0, next0, a0, st0, c := d.r.given, d.r.next, d.abs, d.st, CodesOf(d.abs.mode);
      ghost var input, put0 := d.r.input, put;
      d.FastStarts(c);
      FastBegins(c);
      var t;
      t, offset := FastLoop(c, given0, next0, a0);
      far := t.Far?;
      if far {
        FastReject(offset, c, given0, next0, a0, put0);
      } else {
        d.FastMore(t.Go?, c, given0, next0, a0);
        d.FastStops(c, given0, next0, a0, st0);
        d.FastGiveBack(given0, next0, a0);
        Written(put0);
        d.MovedParts(given0, next0, a0);
        StillOneRun(given0, next0, a0);
        StillInput(given0, input, next0, Rest(chunks));
      }
    }

    lemma FastBegins(c: Codes)
      requires WindowOk() && d.abs.out == Produced() && d.FastIn(c, d.r.given, d.r.next, d.abs)
      ensures FastReady(c, d.r.given, d.r.next, d.abs)
    {
      hide Decoder.FastIn;
    }

    /** whave is at least what had been written when inflate_fast began. */
    lemma FastEnds(dist: nat, c: Codes, given0: seq<byte>, next0: nat, a0: State, put0: nat)
      requires FastFar(dist, c, given0, next0, a0) && HandedOut() && put0 <= put && put0 <= whave
      requires |a0.out| == |hist| + put0
      ensures d.Fast(given0, next0, a0) && d.r.Valid() && d.Offset(d.r.Stream(), dist)
      ensures |d.abs.out| < WSIZE + dist && d.r.Pos() == d.abs.pos + d.abs.mode.extra
      ensures d.abs.mode.c == c && dist > (|d.abs.out| - WSIZE) + (|a0.out| - WSIZE)
    {
      hide Decoder.Fast;
    }

    lemma StillFast(offset: nat, given0: seq<byte>, next0: nat, a0: State, input: seq<byte>)
      requires d.r.input == input && next0 <= |input| && given0 + input[next0..] + Rest(chunks) == stream
      requires Reach(BytesBits(given0), Begin(w0), a0) && d.Moved(given0, next0, a0)
      requires d.Offset(BytesBits(d.r.given), offset) && |d.abs.out| < WSIZE + offset && |w0| == WSIZE
      requires FullWindows(outs)
      ensures TooFar(offset)
    {
      hide Reach, Begin, Decoder.Offset, BytesBits;
      d.MovedParts(given0, next0, a0);
      StillOneRun(given0, next0, a0);
      StillInput(given0, input, next0, Rest(chunks));
    }

    /** The distance is too far even for inflate_fast, or that was not at work. */
    ghost predicate Firm(offset: nat)
      reads d, d.r
    {
      d.abs.mode.DistExt? && (whole ==> Strict(BytesBits(d.r.given), 8 * |stream|, w0, d.abs, offset))
    }

    lemma StillFirm(offset: nat, c: Codes, given0: seq<byte>, next0: nat, a0: State)
      requires Reach(BytesBits(given0), Begin(w0), a0) && d.Moved(given0, next0, a0) && a0.mode == Len(c)
      requires d.Offset(BytesBits(d.r.given), offset) && d.abs.mode.c == c && |w0| == WSIZE
      requires offset > (|d.abs.out| - WSIZE) + (|a0.out| - WSIZE)
      ensures Firm(offset)
    {
      hide Reach, Begin, BytesBits, Num;
      d.MovedParts(given0, next0, a0);
      WholeStream(d.r.given, given0, w0, a0);
    }

    /** Outside of inflate_fast, with all input at hand. */
    lemma SlowIsLate()
      requires Inv() && Cramped() && d.st.mode.DISTEXT?
      ensures whole ==> Late(8 * |stream|, w0, d.abs)
    {
      hide Reach, Begin, BytesBits, Matches, GoodState, Tight, Flat;
      Opened();
      d.Kind();
    }

    // ---------- inflateBack ----------

    /** What inflateBack returns, and what that means. */
    ghost predicate Returns(ret: BackRet, offset: nat)
      reads this, d, d.r, window
    {
      && |w0| == WSIZE && BackOutcome(stream, w0, d.r.given, d.abs, outs, quota, ret, offset)
      && (whole ==> Tolerant(stream, w0, d.r.given, d.abs, ret, offset))
    }

    /** DONE: hands out what is left in the window. */
    method Finish() returns (ret: BackRet)
      requires Inv() && d.st.mode.CHECK? && |outs| <= quota
      modifies `outs
      ensures (ret.BackEnd? || ret.BackBufError?) && Returns(ret, 0)
    {
      hide Reach, BytesBits, Begin, Matches, GoodState, Next, Flat;
      Opened();
      d.Kind();
      TakenIsPrefix();
      ret := BackEnd;
      if put > 0 {
        FlatSnoc(outs, window[..put]);
        assert w0 + Flat(outs) + window[..put] == w0 + (Flat(outs) + window[..put]);
        var ok := Out(put);
        if !ok {
          ret := BackBufError;
        }
      } else {
        assert hist + window[..0] == hist;
      }
    }

    lemma TakenIsPrefix()
      requires InputOk()
      ensures d.r.given <= stream
    {
    }

    /** The decoder reads on, or asks for more input. */
    method TurnDecoding() returns (status: Status)
      requires Inv() && Reads(d.st.mode) && Cramped()
      requires d.st.mode.LEN? ==> |d.r.input| - d.r.next < 6 || WSIZE - put < 258
      modifies `chunks, d.r`hold, d.r`bits, d.r`next, d.r`given, d.r`input, d`st, d`abs
      ensures Inv() && (status.More? || status.Dry?) && d.r.Valid() && old(d.r.Valid())
      ensures status.More? ==> Less(|chunks|, d.r.Pos(), d.st, old(|chunks|), old(d.r.Pos()), old(d.st))
      ensures status.More? ==> Cramped()
      ensures status.Dry? ==> d.Starved() && d.r.given == stream
    {
      hide Inv, Decoder.Starved, Rank;
      var leave := TurnReading();
      if leave {
        status := TurnPull();
      } else {
        status := More;
      }
    }

    /** PULL, when the input at hand has run out. */
    method TurnPull() returns (status: Status)
      requires Inv() && d.Starved()
      modifies `chunks, d.r`input, d.r`next
      ensures Inv() && (status.More? || status.Dry?) && d.r.Valid() && old(d.r.Valid())
      ensures status.More? ==> |chunks| < |old(chunks)|
      ensures status.Dry? ==> d.Starved() && d.r.given == stream
    {
      hide Inv, Holds, Next;
      var ok := Pull();
      status := if ok then More else Dry;
    }

    /** inflate_fast is told how much there is behind the output. */
    method SetHave()
      requires Inv() && WSIZE - put >= 258
      modifies `whave
      ensures Inv() && whave >= put
    {
      hide WindowOk, InputOk, Decoder.Inv, Reach, BytesBits, Flat;
      if whave < WSIZE {
        whave := put;
      }
    }

    /** One turn of the loop of inflateBack. */
    method Turn() returns (status: Status, ghost offset: nat)
      requires Inv() && Cramped() && |outs| <= quota && !d.st.mode.CHECK? && !d.st.mode.BAD?
      modifies this, d, d.r, window
      ensures status.More? ==> Inv() && Cramped() && |outs| <= quota && d.r.Valid() && old(d.r.Valid())
      ensures status.More? ==> Less(|chunks|, d.r.Pos(), d.st, old(|chunks|), old(d.r.Pos()), old(d.st))
      ensures status.Dry? ==> Inv() && d.Starved() && d.r.given == stream
      ensures status.Failed? ==> Inv() && |outs| > quota
      ensures status.TooFarBack? ==> TooFar(offset) && Firm(offset)
    {
      hide Inv, WindowOk, HandedOut, InputOk, Reach, BytesBits, Matches, GoodState, Next, Flat, TooFar, Holds,
           Decoder.Starved;
      offset := 0;
      Opened();
      d.Kind();
      if d.st.mode.COPY? {
        var ok, dry := TurnCopy();
        status := if ok then More else if dry then Dry else Failed;
      } else if d.st.mode.MATCH? {
        var ok := TurnMatch();
        status := if ok then More else Failed;
      } else if d.st.mode.LIT? {
        var ok := TurnLiteral();
        status := if ok then More else Failed;
      } else if d.st.mode.LEN? && |d.r.input| - d.r.next >= 6 && WSIZE - put >= 258 {
        SetHave();
        var far;
        far, offset := InflateFast();
        status := if far then TooFarBack else More;
      } else if d.st.mode.DISTEXT? {
        var leave, far;
        SlowIsLate();
        leave, far, offset := TurnDistance();
        if far {
          status := TooFarBack;
        } else if leave {
          status := TurnPull();
        } else {
          status := More;
        }
      } else {
        status := TurnDecoding();
      }
    }

    /** inflateBack, after the reset: decodes all that in() gives, and hands it to out(). */
    method InflateBack() returns (ret: BackRet, ghost offset: nat)
      requires Inv() && Cramped() && |outs| <= quota
      modifies this, d, d.r, window
      ensures Returns(ret, offset)
    {
      hide Inv, WindowOk, HandedOut, InputOk, Reach, BytesBits, Matches, GoodState, Next, Flat, Rank, Returns, TooFar,
           Holds, Decoder.Starved;
      offset := 0;
      ghost var total := 8 * |stream|;
      Within(total);
      while !d.st.mode.CHECK? && !d.st.mode.BAD?
        invariant Inv() && Cramped() && |outs| <= quota && d.r.Valid() && d.r.Pos() <= total
        decreases |chunks|, total - d.r.Pos(), Rank(d.st.mode), d.st.length
      {
        var status;
        status, offset := Turn();
        if !status.More? {
          NotMore(status, offset);
          return if status.TooFarBack? then BackDataError else BackBufError, offset;
        }
        Within(total);
      }
      if d.st.mode.CHECK? {
        ret := Finish();
        offset := 0;
      } else {
        Rejected();
        ret, offset := BackDataError, 0;
      }
    }

    lemma Within(total: nat)
      requires Inv() && total == 8 * |stream|
      ensures d.r.Valid() && d.r.Pos() <= total
    {
      hide WindowOk, HandedOut, Reach, BytesBits, Holds;
      Opened();
    }

    lemma NotMore(status: Status, offset: nat)
      requires status.Dry? ==> Inv() && d.Starved() && d.r.given == stream
      requires status.Failed? ==> Inv() && |outs| > quota
      requires status.TooFarBack? ==> TooFar(offset) && Firm(offset)
      ensures !status.More? ==> Returns(if status.TooFarBack? then BackDataError else BackBufError, offset)
    {
      hide WindowOk, Reach, BytesBits, Next, Decoder.Inv, Flat, Num;
      if !status.More? {
        TakenIsPrefix();
      }
    }

    lemma Rejected()
      requires Inv() && d.st.mode.BAD?
      ensures Returns(BackDataError, 0)
    {
      hide WindowOk, Reach, BytesBits, Next, Flat;
      Opened();
      d.Kind();
      TakenIsPrefix();
    }
  }

  lemma BeginGood(w: seq<byte>)
    ensures GoodState(Begin(w))
  {
  }

  // ---------- inflateBack and inflate ----------

  /** The state with w in front of the output. */
  function Shifted(w: seq<byte>, a: State): State
  {
    a.(out := w + a.out)
  }

  /** The next distance, if that is what comes next, does not reach back before the first byte. */
  ghost predicate Near(B: Bits, a: State, have: int)
  {
    a.mode.DistExt? && a.pos + a.mode.extra <= |B| ==> a.mode.base + Num(B, a.pos, a.mode.extra) <= have
  }

  /** But for distances that are too far, output in front changes nothing. */
  lemma ShiftStep(B: Bits, a: State, w: seq<byte>)
    requires GoodState(a) && Near(B, a, |a.out|)
    ensures Next(B, Shifted(w, a)) == Front(w, Next(B, a))
  {
    match a.mode {
      case Copying(_) => ShiftCopying(B, a, w);
      case Match(_, _, _) => ShiftMatch(B, a, w);
      case Lit(_, _) => ShiftLit(B, a, w);
      case DistExt(_, _, _, _) => ShiftDistExt(B, a, w);
      case LenLens(_, _, _, _) => ShiftLengths(B, a, w);
      case CodeLens(_, _, _, _) => ShiftLengths(B, a, w);
      case Len(_) => ShiftSymbol(B, a, w);
      case LenExt(_, _, _) => ShiftSymbol(B, a, w);
      case Dist(_, _) => ShiftSymbol(B, a, w);
      case _ => ShiftBlock(B, a, w);
    }
  }

  function Front(w: seq<byte>, b: Option<State>): Option<State>
  {
    if b.None? then None else Some(Shifted(w, b.value))
  }

  lemma ShiftCopying(B: Bits, a: State, w: seq<byte>)
    requires a.mode.Copying?
    ensures Next(B, Shifted(w, a)) == Front(w, Next(B, a))
  {
    hide ByteAt;
    if a.mode.left > 0 && a.pos + 8 <= |B| {
      assert w + (a.out + [ByteAt(B, a.pos)]) == w + a.out + [ByteAt(B, a.pos)];
    }
  }

  lemma ShiftMatch(B: Bits, a: State, w: seq<byte>)
    requires a.mode.Match? && 1 <= a.mode.offset <= |a.out|
    ensures Next(B, Shifted(w, a)) == Front(w, Next(B, a))
  {
    var offset := a.mode.offset;
    assert (w + a.out)[|w + a.out| - offset] == a.out[|a.out| - offset];
    assert w + (a.out + [a.out[|a.out| - offset]]) == w + a.out + [a.out[|a.out| - offset]];
  }

  lemma ShiftLit(B: Bits, a: State, w: seq<byte>)
    requires a.mode.Lit?
    ensures Next(B, Shifted(w, a)) == Front(w, Next(B, a))
  {
    assert w + (a.out + [a.mode.b]) == w + a.out + [a.mode.b];
  }

  lemma ShiftDistExt(B: Bits, a: State, w: seq<byte>)
    requires a.mode.DistExt? && Near(B, a, |a.out|)
    ensures Next(B, Shifted(w, a)) == Front(w, Next(B, a))
  {
    hide Num;
  }

  lemma ShiftBlock(B: Bits, a: State, w: seq<byte>)
    requires a.mode.Type? || a.mode.Stored? || a.mode.Table? || Final(a)
    ensures Next(B, Shifted(w, a)) == Front(w, Next(B, a))
  {
    hide Num, Align, FixedCodes;
  }

  lemma ShiftLengths(B: Bits, a: State, w: seq<byte>)
    requires a.mode.LenLens? || a.mode.CodeLens?
    ensures Next(B, Shifted(w, a)) == Front(w, Next(B, a))
  {
    hide Num, Acceptable, CodeLengthCode, Repeat, DecodeLength, RepeatBits, RepeatBase;
  }

  lemma ShiftSymbol(B: Bits, a: State, w: seq<byte>)
    requires a.mode.Len? || a.mode.LenExt? || a.mode.Dist?
    ensures Next(B, Shifted(w, a)) == Front(w, Next(B, a))
  {
    hide Num, Decode;
  }

  lemma NotRejected(B: Bits, a: State, b: State)
    requires Next(B, a) == Some(b) && !b.mode.Bad?
    ensures Near(B, a, |a.out|)
  {
  }

  /** Along a run that is not rejected. */
  lemma {:induction false} ShiftRun(B: Bits, a: State, end: State, n: nat, m: nat, w: seq<byte>)
    requires GoodState(a) && Steps(B, a, n) == Some(end) && !end.mode.Bad? && m <= n
    ensures Steps(B, a, m).Some? && Steps(B, Shifted(w, a), m) == Some(Shifted(w, Steps(B, a, m).value))
    ensures m < n ==> Next(B, Steps(B, a, m).value).Some? && Near(B, Steps(B, a, m).value, |Steps(B, a, m).value.out|)
    decreases n
  {
    hide Next, GoodState, Near;
    if n > 0 {
      var b := Next(B, a).value;
      assert !b.mode.Bad? by { BadIsLast(B, b, end, n - 1); }
      NotRejected(B, a, b);
      if m > 0 {
        ShiftStep(B, a, w);
        NextGood(B, a, b);
        ShiftRun(B, b, end, n - 1, m - 1, w);
      }
    }
  }

  lemma BadIsLast(B: Bits, b: State, end: State, n: nat)
    requires Steps(B, b, n) == Some(end) && !end.mode.Bad?
    ensures !b.mode.Bad?
  {
  }

  /** Back again, as long as no distance is too far. */
  lemma {:induction false} UnshiftRun(B: Bits, a: State, e: State, n: nat, w: seq<byte>) returns (end: State)
    requires GoodState(a) && Steps(B, Shifted(w, a), n) == Some(e)
    requires forall m: nat :: m <= n && Steps(B, Shifted(w, a), m).Some? ==>
               Near(B, Steps(B, Shifted(w, a), m).value, |Steps(B, Shifted(w, a), m).value.out| - |w|)
    ensures Steps(B, a, n) == Some(end) && e == Shifted(w, end)
    decreases n
  {
    hide Next, GoodState;
    assert Steps(B, Shifted(w, a), 0) == Some(Shifted(w, a));
    if n == 0 {
      end := a;
    } else {
      ShiftStep(B, a, w);
      var b := Next(B, a).value;
      NextGood(B, a, b);
      forall m: nat | m <= n - 1 && Steps(B, Shifted(w, b), m).Some?
        ensures Near(B, Steps(B, Shifted(w, b), m).value, |Steps(B, Shifted(w, b), m).value.out| - |w|)
      {
        assert Steps(B, Shifted(w, a), m + 1) == Steps(B, Shifted(w, b), m);
      }
      end := UnshiftRun(B, b, e, n - 1, w);
    }
  }

  /** What a call of inflateBack over a stream can come to; w is what was in the window before. */
  ghost predicate BackOutcome(stream: seq<byte>, w: seq<byte>, given: seq<byte>, abs: State, outs: seq<seq<byte>>,
                              quota: nat, ret: BackRet, offset: nat)
  {
    && given <= stream && Reach(BytesBits(given), Begin(w), abs) && Windowfuls(outs)
    && match ret
       case BackEnd => abs.mode.Done? && 8 * |given| == abs.pos && abs.out == w + Flat(outs) && |outs| <= quota
       case BackDataError => abs.mode.Bad? || Rejected(BytesBits(given), abs, |abs.out| - |w|, offset)
       case BackBufError =>
         || (|outs| > quota && w + Flat(outs) <= abs.out)
         || (given == stream && Next(BytesBits(stream), abs).None? && !Final(abs))
  }

  /** So near the end of the stream, or of the window, that inflate_fast may not be at work. */
  predicate Late(total: nat, w: seq<byte>, a: State)
  {
    a.pos + 64 >= total || |a.out| - |w| + 258 > WSIZE
  }

  /**
   A distance is only rejected if inflate_fast may not be at work, or if it is more than the output together with the
   output at the time when inflate_fast was entered.
   */
  ghost predicate Strict(B: Bits, total: nat, w: seq<byte>, a: State, offset: nat)
    requires a.mode.DistExt?
  {
    || Late(total, w, a)
    || exists b :: Reach(B, Begin(w), b) && b.mode == Len(a.mode.c) && Reach(B, b, a)
                   && offset > (|a.out| - |w|) + (|b.out| - |w|)
  }

  /** What a call with all input at hand lets pass. */
  ghost predicate Tolerant(stream: seq<byte>, w: seq<byte>, given: seq<byte>, abs: State, ret: BackRet, offset: nat)
  {
    ret.BackDataError? ==>
      abs.mode.Bad? || (abs.mode.DistExt? && Strict(BytesBits(given), 8 * |stream|, w, abs, offset))
  }

  /** The distance in the stream is more than there is. */
  ghost predicate Rejected(B: Bits, a: State, have: int, offset: nat)
  {
    a.mode.DistExt? && a.pos + a.mode.extra <= |B| && offset == a.mode.base + Num(B, a.pos, a.mode.extra) > have
  }

  lemma WholeStream(stream: seq<byte>, given: seq<byte>, w: seq<byte>, a: State)
    requires given <= stream && Reach(BytesBits(given), Begin(w), a)
    ensures Reach(BytesBits(stream), Begin(w), a) && |BytesBits(given)| <= |BytesBits(stream)|
    ensures BytesBits(given) == BytesBits(stream)[..|BytesBits(given)|]
  {
    hide Reach, Begin;
    var more := stream[|given|..];
    assert stream == given + more;
    BytesBitsAppend(given, more);
    BeginGood(w);
    ReachLonger(BytesBits(given), BytesBits(more), Begin(w), a);
  }

  /** Where inflateBack is on the way of inflate. */
  lemma OnTheWay(B: Bits, end: State, w: seq<byte>, abs: State) returns (a: State)
    requires Reach(B, START, end) && end.mode.Done? && Reach(B, Begin(w), abs)
    ensures abs == Shifted(w, a)
    ensures a == end || (Next(B, a).Some? && Near(B, a, |a.out|) && !Final(a))
    ensures a.out <= end.out
    ensures a != end ==> Next(B, abs).Some?
  {
    hide Next, Near;
    var n: nat :| Steps(B, START, n) == Some(end);
    var m: nat :| Steps(B, Begin(w), m) == Some(abs);
    assert Begin(w) == Shifted(w, START);
    ShiftRun(B, START, end, n, n, w);
    if m > n {
      StepsAdd(B, Begin(w), n, m - n);
      EndIsLast(B, Shifted(w, end));
      assert false;
    }
    ShiftRun(B, START, end, n, m, w);
    a := Steps(B, START, m).value;
    StepsAdd(B, START, m, n - m);
    OutGrows(B, a, n - m);
    if m < n {
      FinalHasNone(B, a);
      StartReaches(B, a, m);
      ShiftStep(B, a, w);
    }
  }

  lemma StartReaches(B: Bits, a: State, m: nat)
    requires Steps(B, START, m) == Some(a)
    ensures GoodState(a)
  {
    hide Next;
    assert Reach(B, START, a);
    BeginGood([]);
    assert Begin([]) == START;
    ReachGood(B, START, a);
  }

  lemma EndIsLast(B: Bits, a: State)
    requires a.mode.Done?
    ensures Next(B, a).None?
  {
  }

  lemma FinalHasNone(B: Bits, a: State)
    ensures Final(a) ==> Next(B, a).None?
  {
  }

  /**
   inflateBack agrees with inflate: a stream that inflate decodes to the end is decoded by inflateBack to the same
   bytes, if only the callbacks succeed; what the window held before does not matter.
   */
  lemma BackAgrees(stream: seq<byte>, end: State, w: seq<byte>, given: seq<byte>, abs: State, outs: seq<seq<byte>>,
                   quota: nat, ret: BackRet, offset: nat)
    requires BackOutcome(stream, w, given, abs, outs, quota, ret, offset)
    requires Reach(BytesBits(stream), START, end) && end.mode.Done?
    ensures !ret.BackDataError? && (ret.BackEnd? <==> |outs| <= quota)
    ensures |end.out| <= WSIZE * quota ==> ret.BackEnd?
    ensures ret.BackEnd? ==> Flat(outs) == end.out && 8 * |given| == end.pos
  {
    hide Reach, BytesBits, Next, Flat, Begin;
    var B := BytesBits(stream);
    WholeStream(stream, given, w, abs);
    var a := OnTheWay(B, end, w, abs);
    if ret.BackEnd? {
      assert Final(a);
      assert w + Flat(outs) == w + end.out;
      assert (w + Flat(outs))[|w|..] == Flat(outs) && (w + end.out)[|w|..] == end.out;
    } else if ret.BackDataError? {
      if !abs.mode.Bad? {
        SameNum(B, BytesBits(given), abs);
      }
      assert false;
    } else {
      FewWindowfuls(outs);
    }
  }

  lemma SameNum(B: Bits, B1: Bits, a: State)
    requires |B1| <= |B| && B1 == B[..|B1|] && a.mode.DistExt? && a.pos + a.mode.extra <= |B1|
    ensures Num(B, a.pos, a.mode.extra) == Num(B1, a.pos, a.mode.extra)
  {
    NumPrefix(B, B1, a.pos, a.mode.extra);
  }

  /** No distance on the way to abs reaches back before the first byte of output. */
  ghost predicate AllNear(B: Bits, w: seq<byte>, abs: State)
  {
    forall m: nat :: Steps(B, Begin(w), m).Some? ==>
      Near(B, Steps(B, Begin(w), m).value, |Steps(B, Begin(w), m).value.out| - |w|)
  }

  /**
   The other way round: what inflateBack decodes to the end, inflate decodes if and only if no distance reaches back
   before the first byte; the fast loop of inflateBack lets some of those pass.
   */
  lemma BackEndMeans(stream: seq<byte>, w: seq<byte>, given: seq<byte>, abs: State, outs: seq<seq<byte>>, quota: nat)
    requires BackOutcome(stream, w, given, abs, outs, quota, BackEnd, 0)
    ensures (exists end :: Reach(BytesBits(stream), START, end) && end.mode.Done?)
            <==> AllNear(BytesBits(stream), w, abs)
  {
    hide BytesBits, Next, Flat, Near;
    var B := BytesBits(stream);
    WholeStream(stream, given, w, abs);
    assert Begin(w) == Shifted(w, START);
    var n: nat :| Steps(B, Begin(w), n) == Some(abs);
    if AllNear(B, w, abs) {
      BeginGood([]);
      assert Begin([]) == START;
      var end := UnshiftRun(B, START, abs, n, w);
      assert Reach(B, START, end);
    } else if end :| Reach(B, START, end) && end.mode.Done? {
      forall m: nat | Steps(B, Begin(w), m).Some?
        ensures Near(B, Steps(B, Begin(w), m).value, |Steps(B, Begin(w), m).value.out| - |w|)
      {
        var c := Steps(B, Begin(w), m).value;
        assert Reach(B, Begin(w), c);
        var a := OnTheWay(B, end, w, c);
        NearShifted(B, a, w);
      }
    }
  }

  lemma NearShifted(B: Bits, a: State, w: seq<byte>)
    requires a.mode.Done? || Near(B, a, |a.out|)
    ensures Near(B, Shifted(w, a), |Shifted(w, a).out| - |w|)
  {
  }
}
