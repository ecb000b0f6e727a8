/** deflate() (deflate.c) for raw streams: flushing, the end of the stream, and what has been handed out. */
module DeflateStreams {
  import opened Shift
  import opened Bits
  import opened Format
  import opened FormatFacts
  import opened BlockCode
  import opened BlockRoundTrip
  import opened Hashing
  import opened LzWindow
  import opened BlockStates
  import opened BitWriting
  import opened Deflating

  datatype Code = Z_OK | Z_STREAM_END | Z_STREAM_ERROR | Z_BUF_ERROR

  /** The number of a flush parameter. */
  function FlushRank(f: Flush): int
  {
    match f
    case NoFlush => 0
    case PartialFlush => 1
    case SyncFlush => 2
    case FullFlush => 3
    case Finish => 4
  }

  class DeflateStream {
    const d: Deflater
    const level: nat
    /** status is FINISH_STATE; and the flush parameter of the last call, or -1. */
    var finishing: bool
    var lastFlush: int

    ghost function Repr(): set<object>
    {
      {this, d, d.window, d.head, d.prev} + d.bs.Repr()
    }

    /** Between two calls of the compression function of the level. */
    ghost predicate Running()
      reads d, d.window, d.head, d.prev, d.bs.Repr()
    {
      if level == 0 then d.StoredOk() else if level <= 3 then d.FastOk() else d.SlowOk()
    }

    /** Between two calls of deflate(). */
    ghost predicate Valid()
      reads Repr()
    {
      && this !in {d as object, d.window, d.head, d.prev} + d.bs.Repr() && d.Shape()
      && if finishing then d.Finished() else Running()
    }

    /** The bytes handed out so far. */
    ghost function Output(): seq<byte>
      reads this, d, d.bs, d.bs.w
    {
      d.bs.w.output
    }

    constructor (level: nat, strategy: Strategy, wSize: nat, hp: HashParams, config: Config, litBufsize: nat)
      requires 512 <= wSize <= 32768 && GoodHash(hp) && 2 <= litBufsize <= 0x8000
      requires level <= 9 && (level > 0 ==> config.maxChain >= 4)
      ensures Valid() && fresh(Repr()) && !finishing && d.input == [] && Output() == []
    {
      hide Deflater.FastOk, Deflater.SlowOk, Deflater.StoredOk, Deflater.Finished, GoodHash, BlockState.Valid;
      var deflater := new Deflater(level, strategy, wSize, hp, config, litBufsize);
      d, this.level, finishing, lastFlush := deflater, level, false, 0;
    }

    lemma Basics()
      requires Valid()
      ensures d.bs.Valid() && d.Shape()
      ensures (finishing ==> d.bs.reader.mode.Done? && d.bs.w.biValid == 0 && d.bs.reader.out == d.input)
      ensures !finishing ==> d.bs.reader.mode.Type? && !d.bs.reader.last
      ensures d.lookahead <= |d.input| && d.wSize >= 512 && InReach(d.bs.reader.toks, d.MaxDist())
    {
      hide InReach;
    }

    /** The compression function of the level. */
    method Compress(flush: Flush) returns (res: Result)
      requires Running() && d.Shape()
      modifies d, d.window, d.head, d.prev, d.bs.Repr()
      ensures d.input + d.nextIn == old(d.input + d.nextIn) && old(d.input) <= d.input
      ensures old(d.bs.w.output) <= d.bs.w.output
      ensures |d.bs.w.output| + d.availOut == old(|d.bs.w.output| + d.availOut)
      ensures if res.FinishStarted? || res.FinishDone? then d.Finished() && flush.Finish? && d.nextIn == []
               else Running()
      ensures res.BlockDone? || res.FinishDone? ==> d.availOut > 0 && d.bs.w.pending == []
      ensures (res.BlockDone? ==> !flush.NoFlush? && !flush.Finish?) && (res.FinishStarted? ==> d.availOut == 0)
      ensures res.BlockDone? ==> d.nextIn == [] && d.bs.reader.out == d.input
      ensures res.NeedMore? ==> d.availOut == 0 || (d.nextIn == [] && flush.NoFlush?)
      ensures d.Place() >= old(d.Place()) && (res.NeedMore? && flush.Finish? ==> d.Place() > old(d.Place()))
    {
      hide BlockState.Valid, Chain, LzWindow.Holds, Expand, GoodTokens;
      if level == 0 {
        res := d.DeflateStored(flush);
      } else if level <= 3 {
        res := d.DeflateFast(flush);
      } else {
        res := d.DeflateSlow(flush);
      }
    }

    lemma RunningParts()
      requires Running() && d.Shape()
      ensures d.bs.Valid() && d.ChainOk(d.strstart) && d.bs.reader.mode.Type? && !d.bs.reader.last
    {
      hide BlockState.Valid, Chain, LzWindow.Holds, Expand, GoodTokens;
    }

    /** The empty block that ends a flush. */
    method Mark(flush: Flush)
      requires Running() && d.Shape()
      modifies d.bs.w, d.bs`lastEobLen, d.bs`reader, d.head, d`availOut
      ensures Running() && d.bs.reader.out == old(d.bs.reader.out) && d.Place() == old(d.Place())
      ensures |d.bs.w.output| + d.availOut == old(|d.bs.w.output| + d.availOut)
      ensures (d.availOut == 0 || d.bs.w.pending == [])
      ensures old(d.bs.w.output) <= d.bs.w.output && (!flush.PartialFlush? ==> d.bs.w.biValid == 0)
    {
      hide BlockState.Valid, Chain, LzWindow.Holds, Expand, GoodTokens;
      RunningParts();
      d.Marker(flush);
    }

    /** All pending output that fits. */
    method Pump()
      requires Valid()
      modifies d.bs.w, d`availOut
      ensures Valid() && d.Place() == old(d.Place())
      ensures |d.bs.w.output| + d.availOut == old(|d.bs.w.output| + d.availOut)
      ensures (d.availOut == 0 || d.bs.w.pending == [])
      ensures old(d.bs.w.output) <= d.bs.w.output
      ensures d.bs.w.output + d.bs.w.pending == old(d.bs.w.output + d.bs.w.pending)
    {
      hide BlockState.Valid, Chain, LzWindow.Holds, Expand, GoodTokens;
      Basics();
      d.Pump();
    }

    /** A call of the compression function, and the end of the flush if it is complete. done: there is room left. */
    method Work(flush: Flush) returns (done: bool)
      requires Valid() && !finishing
      modifies Repr()
      ensures Valid() && d.input + d.nextIn == old(d.input + d.nextIn) && old(d.input) <= d.input
      ensures old(Output()) <= Output()
      ensures |Output()| + d.availOut == old(|Output()| + d.availOut)
      ensures finishing ==> flush.Finish? && d.nextIn == []
      ensures lastFlush == if d.availOut == 0 then -1 else old(lastFlush)
      ensures !done && flush.Finish? ==> finishing || d.Place() > old(d.Place())
      ensures d.Place() >= old(d.Place())
      ensures done ==>
               d.availOut > 0 && d.bs.w.pending == [] && !flush.NoFlush? && d.nextIn == [] && d.bs.reader.out == d.input
      ensures done && flush.Finish? ==> finishing
      ensures done && (flush.SyncFlush? || flush.FullFlush?) ==> d.bs.w.biValid == 0
      ensures !done ==> d.availOut == 0 || (flush.NoFlush? && d.nextIn == [])
    {
      hide Chain, LzWindow.Holds, Expand, GoodTokens, BlockState.Valid;
      var res := Compress(flush);
      if res.FinishStarted? || res.FinishDone? {
        finishing := true;
      }
      if res.NeedMore? || res.FinishStarted? {
        if d.availOut == 0 {
          lastFlush := -1;
        }
        return false;
      }
      if res.BlockDone? {
        Mark(flush);
        if d.availOut == 0 {
          lastFlush := -1;
          return false;
        }
      }
      done := true;
    }

    /** The caller's buffers. */
    method Supply(inp: seq<byte>, room: nat)
      requires Valid()
      modifies d`nextIn, d`availOut
      ensures Valid() && d.nextIn == inp && d.availOut == room && d.Place() == old(d.Place())
    {
      hide Chain, LzWindow.Holds, Expand, GoodTokens, BlockState.Valid, Primed;
      d.nextIn, d.availOut := inp, room;
    }

    /**
     What deflate() answers with Z_BUF_ERROR: there is no room; there is nothing to do and the flush is not stronger
     than the last one; or there is more input after the first Finish, and the pending output leaves room.
     */
    ghost predicate Refused(inp: seq<byte>, room: nat, flush: Flush)
      reads this, d.bs, d.bs.w
    {
      || room == 0
      || (d.bs.w.pending == [] && inp == [] && FlushRank(flush) <= lastFlush && !flush.Finish?)
      || (finishing && inp != [] && |d.bs.w.pending| < room)
    }

    /** Closer to the end of the stream than a state with these values. */
    ghost predicate Nearer(finishing0: bool, place0: nat, pending0: nat)
      reads this, d, d.bs, d.bs.w
    {
      || (finishing && !finishing0)
      || (finishing == finishing0 && d.Place() > place0)
      || (finishing == finishing0 && d.Place() == place0 && |d.bs.w.pending| < pending0)
    }

    /** deflate() from the point where the parameters are known to be good. */
    method Continue(flush: Flush) returns (ret: Code)
      requires Valid() && d.availOut > 0 && (finishing ==> flush.Finish?)
      modifies Repr()
      ensures Valid() && d.input + d.nextIn == old(d.input + d.nextIn) && old(d.input) <= d.input
      ensures old(Output()) <= Output()
      ensures |Output()| + d.availOut == old(|Output()| + d.availOut)
      ensures ret.Z_STREAM_END? ==> finishing && d.nextIn == [] && d.bs.w.pending == []
      ensures !ret.Z_STREAM_ERROR? && (ret.Z_BUF_ERROR? <==> old(Refused(d.nextIn, d.availOut, flush)))
      ensures ret.Z_STREAM_END? <==> flush.Finish? && d.availOut > 0 && !ret.Z_BUF_ERROR?
      ensures ret.Z_OK? && d.availOut > 0 ==> d.nextIn == []
      ensures lastFlush == if d.availOut == 0 then -1 else FlushRank(flush)
      ensures finishing && !old(finishing) ==> flush.Finish? && d.nextIn == []
      ensures old(finishing) ==> finishing && d.nextIn == old(d.nextIn)
      ensures d.Place() >= old(d.Place())
      ensures ret.Z_OK? && flush.Finish? ==> Nearer(old(finishing), old(d.Place()), old(|d.bs.w.pending|))
      ensures ret.Z_OK? && (flush.SyncFlush? || flush.FullFlush?) && d.availOut > 0 ==>
                !finishing && d.nextIn == [] && d.bs.w.pending == [] && d.bs.w.biValid == 0
                    && d.bs.reader.out == d.input
    {
      hide Chain, LzWindow.Holds, Expand, GoodTokens, BlockState.Valid, DeflateStream.Running, Deflater.Finished;
      var oldFlush := lastFlush;
      lastFlush := FlushRank(flush);
      if d.bs.w.pending != [] {
        Pump();
        if d.availOut == 0 {
          lastFlush := -1;
          return Z_OK;
        }
      } else if d.nextIn == [] && FlushRank(flush) <= oldFlush && !flush.Finish? {
        return Z_BUF_ERROR;
      }
      if finishing && d.nextIn != [] {
        return Z_BUF_ERROR;
      }
      if finishing {
        NoLookahead();
      }
      if d.nextIn != [] || d.lookahead != 0 || (!flush.NoFlush? && !finishing) {
        var done := Work(flush);
        if !done {
          return Z_OK;
        }
      }
      if !flush.Finish? {
        return Z_OK;
      }
      ret := Z_STREAM_END;
    }

    /**
     deflate(): takes input, hands out at most room bytes. When it says that the stream has ended, the
     bytes handed out decode to all the input taken; after a sync or full flush that left room they
     decode to it as far as it goes. No copy reaches back further than MAX_DIST. Finish leads to the end of the stream
     as soon as there is room to spare; until then every call fills its room and is nearer to the end.
     */
    method Deflate(inp: seq<byte>, room: nat, flush: Flush) returns (ret: Code, used: nat, out: seq<byte>)
      requires Valid()
      modifies Repr()
      ensures Valid() && used <= |inp| && |out| <= room
      ensures Output() == old(Output()) + out && d.input == old(d.input) + inp[..used]
      ensures ret.Z_STREAM_ERROR? <==> old(finishing) && !flush.Finish?
      ensures ret.Z_BUF_ERROR? <==> !ret.Z_STREAM_ERROR? && old(Refused(inp, room, flush))
      ensures ret.Z_STREAM_END? <==> flush.Finish? && |out| < room && !ret.Z_BUF_ERROR?
      ensures ret.Z_OK? && |out| < room ==> used == |inp| && !flush.Finish?
      ensures ret.Z_OK? && flush.Finish? ==> Nearer(old(finishing), old(d.Place()), old(|d.bs.w.pending|))
      ensures finishing && !old(finishing) ==> flush.Finish? && used == |inp|
      ensures old(finishing) ==> finishing && used == 0
      ensures lastFlush == if ret.Z_STREAM_ERROR? || room == 0 then old(lastFlush)
                           else if |out| == room then -1 else FlushRank(flush)
      ensures ret.Z_STREAM_END? ==>
                finishing && used == |inp| && Reach(BytesBits(Output()), START, d.bs.reader) && d.bs.reader.mode.Done?
                && d.bs.reader.out == d.input && d.bs.reader.pos == 8 * |Output()|
      ensures d.wSize >= 512 && InReach(d.bs.reader.toks, d.MaxDist())
      ensures ret.Z_OK? && (flush.SyncFlush? || flush.FullFlush?) && |out| < room ==>
                used == |inp| && Reach(BytesBits(Output()), START, d.bs.reader) && d.bs.reader.mode.Type?
                && d.bs.reader.out == d.input && d.bs.reader.pos == 8 * |Output()|
    {
      hide Chain, LzWindow.Holds, Expand, GoodTokens, BlockState.Valid, BytesBits, Reach, DeflateStream.Running,
           Deflater.Finished;
      ghost var input0 := d.input;
      used, out := 0, [];
      Basics();
      assert inp[..0] == [] && d.input + [] == d.input && Output() + [] == Output();
      if finishing && !flush.Finish? {
        return Z_STREAM_ERROR, used, out;
      }
      if room == 0 {
        return Z_BUF_ERROR, used, out;
      }
      var before := |d.bs.w.output|;
      Supply(inp, room);
      ret := Continue(flush);
      used := |inp| - |d.nextIn|;
      out := d.bs.w.output[before..];
      Taken(input0, inp, d.input, d.nextIn);
      Basics();
      if ret.Z_STREAM_END? || (ret.Z_OK? && (flush.SyncFlush? || flush.FullFlush?) && d.availOut > 0) {
        Delivered();
      }
    }

    lemma PlaceIsTaken()
      requires Valid()
      ensures d.Place() <= |d.input|
    {
      hide LzWindow.Holds, Chain, BlockState.Valid, InReach;
      d.DataBounds();
    }

    lemma NoLookahead()
      requires Valid() && finishing
      ensures d.lookahead == 0
    {
    }

    lemma Delivered()
      requires d.bs.Valid() && d.bs.w.pending == [] && d.bs.w.biValid == 0
      ensures Reach(BytesBits(Output()), START, d.bs.reader) && d.bs.reader.pos == 8 * |Output()|
    {
      hide Reach, Counts, GoodTokens, GoodState, Expand;
      assert d.bs.w.output + d.bs.w.pending == d.bs.w.output;
      NoBits(BytesBits(d.bs.w.output));
      NoValue(d.bs.w.biBuf);
    }
  }

  lemma Taken(input0: seq<byte>, inp: seq<byte>, input: seq<byte>, nextIn: seq<byte>)
    requires input0 + inp == input + nextIn && input0 <= input
    ensures |nextIn| <= |inp| && input == input0 + inp[..|inp| - |nextIn|]
  {
    var n := |inp| - |nextIn|;
    assert input == (input0 + inp)[..|input|];
    assert (input0 + inp)[..|input|] == input0 + inp[..n];
  }
}
