/**
 Whole runs: what inflate() makes of a stream does not depend on the pieces it is given, and what deflate()
 has handed out inflates to what it was given.
 */
module RoundTrips {
  import opened Bits
  import opened Format
  import opened FormatFacts
  import opened BlockCode
  import opened BlockRoundTrip
  import opened Hashing
  import opened LzWindow
  import opened BlockStates
  import opened BitWriting
  import opened BitReading
  import opened Windows
  import opened InflateStates
  import opened Decoders
  import opened Inflating
  import opened BackInflating
  import Deflating
  import DeflateStreams

  /** One call of inflate(): at most that many more bytes of the stream, and room for that many bytes. */
  datatype Piece = Piece(input: nat, room: nat)

  /** The result of a run: the output, the bytes taken, what the last call returned, and whether it left room. */
  datatype Outcome = Outcome(out: seq<byte>, pos: nat, ret: Ret, spare: bool)

  /** What any run over a stream can have come to. */
  ghost predicate RunOver(stream: seq<byte>, o: Outcome, a: State)
  {
    && o.pos <= |stream| && Reach(BytesBits(stream[..o.pos]), START, a) && a.out == o.out
    && (o.ret.StreamEnd? <==> a.mode.Done?) && (o.ret.DataError? <==> a.mode.Bad?)
  }

  /** inflate() over a stream, in the pieces given; unused input is given again with the next piece. */
  method InflatePieces(z: Inflater, stream: seq<byte>, pieces: seq<Piece>) returns (o: Outcome)
    requires z.AtRest() && z.d.r.given == [] && z.d.abs == START
    modifies z, z.d, z.d.r, z.win, z.win.buf
    ensures z.AtRest() && RunOver(stream, o, z.d.abs) && z.d.r.given == stream[..o.pos]
    ensures o.pos == |stream| && o.spare ==> Final(z.d.abs) || Next(BytesBits(stream), z.d.abs).None?
  {
    hide Inflater.Inv, Reach, BytesBits, Next;
    o := Outcome([], 0, Ok, false);
    for i := 0 to |pieces|
      invariant z.AtRest() && o.pos <= |stream| && z.d.r.given == stream[..o.pos] && z.d.abs.out == o.out
      invariant Reach(BytesBits(stream[..o.pos]), START, z.d.abs)
      invariant (o.ret.StreamEnd? <==> z.d.abs.mode.Done?) && (o.ret.DataError? <==> z.d.abs.mode.Bad?)
      invariant o.pos == |stream| && o.spare ==> Final(z.d.abs) || Next(BytesBits(stream), z.d.abs).None?
    {
      var n := if pieces[i].input <= |stream| - o.pos then pieces[i].input else |stream| - o.pos;
      var buf := new byte[pieces[i].room];
      var used, written, ret := z.Inflate(stream[o.pos..o.pos + n], buf);
      assert stream[..o.pos] + stream[o.pos..o.pos + n][..used] == stream[..o.pos + used];
      assert o.pos + used == |stream| ==> stream[..o.pos + used] == stream;
      o := Outcome(o.out + buf[..written], o.pos + used, ret, written < buf.Length);
    }
  }

  /** Two runs over one stream agree as far as both have got, and are the same once both have ended. */
  lemma RunsAgree(stream: seq<byte>, o1: Outcome, a1: State, o2: Outcome, a2: State)
    requires RunOver(stream, o1, a1) && RunOver(stream, o2, a2)
    ensures o1.out <= o2.out || o2.out <= o1.out
    ensures Final(a1) && Final(a2) ==> o1.out == o2.out && o1.ret == o2.ret && a1.pos == a2.pos
    ensures Final(a1) ==> o2.out <= o1.out
  {
    hide Reach;
    OutputsAgree(stream, stream[..o1.pos], stream[..o2.pos], a1, a2);
    if Final(a1) {
      if Final(a2) {
        ChunksDoNotMatter(stream, stream[..o1.pos], stream[..o2.pos], a1, a2);
      }
      EndIsLongest(stream, o1, a1, o2, a2);
    }
  }

  lemma EndIsLongest(stream: seq<byte>, o1: Outcome, a1: State, o2: Outcome, a2: State)
    requires RunOver(stream, o1, a1) && RunOver(stream, o2, a2) && Final(a1)
    ensures o2.out <= o1.out
  {
    hide Reach;
    var B := BytesBits(stream);
    OneRun(stream, stream[..o1.pos], a1);
    OneRun(stream, stream[..o2.pos], a2);
    NoBranching(B, START, a1, a2);
    if Reach(B, a1, a2) {
      FinalIsLast(B, a1, a2);
    } else {
      ReachOut(B, a2, a1);
    }
  }

  /**
   Chunk independence: one stream, inflated twice in any pieces of input and output. Neither run
   contradicts the other, and if both end they have given the same bytes and ended the same way.
   */
  method InflateTwice(stream: seq<byte>, pieces1: seq<Piece>, pieces2: seq<Piece>) returns (o1: Outcome, o2: Outcome)
    ensures o1.out <= o2.out || o2.out <= o1.out
    ensures (o1.ret.StreamEnd? || o1.ret.DataError?) && (o2.ret.StreamEnd? || o2.ret.DataError?) ==>
             o1.out == o2.out && o1.ret == o2.ret
    ensures o1.ret.StreamEnd? || o1.ret.DataError? ==> o2.out <= o1.out
  {
    hide Inflater.Inv, Reach, BytesBits, Next;
    var z1 := new Inflater();
    o1 := InflatePieces(z1, stream, pieces1);
    var z2 := new Inflater();
    o2 := InflatePieces(z2, stream, pieces2);
    RunsAgree(stream, o1, z1.d.abs, o2, z2.d.abs);
  }

  // ---------- deflate, then inflate ----------

  /** A stream that decodes to data as a whole: every run gives a beginning of data, and all of it if it ends. */
  lemma Recovered(stream: seq<byte>, end: State, o: Outcome, a: State)
    requires Reach(BytesBits(stream), START, end) && end.mode.Done? && RunOver(stream, o, a)
    ensures o.out <= end.out && !o.ret.DataError? && (o.ret.StreamEnd? ==> o.out == end.out)
    ensures Final(a) || Next(BytesBits(stream), a).None? ==> o.ret.StreamEnd?
  {
    hide Reach, Next;
    var whole := Outcome(end.out, |stream|, StreamEnd, true);
    assert stream[..|stream|] == stream;
    RunsAgree(stream, whole, end, o, a);
    if Final(a) {
      FinalHasNoNext(BytesBits(stream), a);
    }
    if Next(BytesBits(stream), a).None? {
      OneRun(stream, stream[..o.pos], a);
      NothingIsMissed(stream, a, end);
    }
  }

  lemma FinalHasNoNext(B: Bits, a: State)
    requires Final(a)
    ensures Next(B, a).None?
  {
  }

  /** One call of deflate(): that many more bytes of the data, room for that many bytes, and a flush parameter. */
  datatype Call = Call(input: nat, room: nat, flush: Deflating.Flush)

  /** Nobody asks for the end before all of the data is offered. */
  predicate FinishLast(data: seq<byte>, calls: seq<Call>)
  {
    forall i :: 0 <= i < |calls| && calls[i].flush.Finish? ==> calls[i].input >= |data|
  }

  /** The last call asks for the end. */
  predicate AsksForEnd(calls: seq<Call>)
  {
    calls != [] && calls[|calls| - 1].flush.Finish?
  }

  /** All of the stream is handed out, and decodes to the data. */
  ghost predicate Complete(d: DeflateStreams.DeflateStream, data: seq<byte>)
    reads d, d.d, d.d.bs, d.d.bs.w
  {
    var end := d.d.bs.reader;
    Reach(BytesBits(d.Output()), START, end) && end.mode.Done? && end.out == data && end.pos == 8 * |d.Output()|
  }

  /**
   deflate() over the data, in the pieces given. ended: it has said that the stream has ended; spare: the last call left
   room.
   */
  method DeflatePieces(d: DeflateStreams.DeflateStream, data: seq<byte>, calls: seq<Call>)
    returns (z: seq<byte>, pos: nat, ended: bool, spare: bool)
    requires d.Valid() && !d.finishing && d.d.input == [] && d.Output() == []
    modifies d.Repr()
    ensures pos <= |data| && z == d.Output() && d.Valid() && d.d.input == data[..pos]
    ensures ended ==> Complete(d, data[..pos])
    ensures FinishLast(data, calls) && (ended || d.finishing) ==> pos == |data|
    ensures FinishLast(data, calls) && AsksForEnd(calls) && spare ==> ended
  {
    hide Reach, BytesBits, Next, DeflateStreams.DeflateStream.Running, Deflating.Deflater.Finished,
         Deflating.Deflater.Shape;
    hide BlockState.Valid, InReach;
    z, pos, ended, spare := [], 0, false, false;
    for i := 0 to |calls|
      invariant pos <= |data| && z == d.Output() && d.Valid() && d.d.input == data[..pos] && !ended
      invariant FinishLast(data, calls) && d.finishing ==> pos == |data|
      invariant i > 0 && FinishLast(data, calls) && calls[i - 1].flush.Finish? ==> !spare
    {
      var n := if calls[i].input <= |data| - pos then calls[i].input else |data| - pos;
      var ret, used, out := d.Deflate(data[pos..pos + n], calls[i].room, calls[i].flush);
      assert data[..pos] + data[pos..pos + n][..used] == data[..pos + used];
      pos := pos + used;
      z := z + out;
      spare := |out| < calls[i].room;
      if ret.Z_STREAM_END? {
        ended := true;
        return;
      }
    }
  }

  /** deflate() with Finish and all that is left of the data, over and over, until the stream has ended. */
  method DeflateRest(d: DeflateStreams.DeflateStream, data: seq<byte>, taken: nat, room: nat) returns (rest: seq<byte>)
    requires d.Valid() && taken <= |data| && d.d.input == data[..taken] && (d.finishing ==> taken == |data|) && room > 0
    modifies d.Repr()
    ensures d.Output() == old(d.Output()) + rest && Complete(d, data)
  {
    hide Reach, BytesBits, Next, DeflateStreams.DeflateStream.Running, Deflating.Deflater.Finished,
         Deflating.Deflater.Shape;
    hide BlockState.Valid, InReach;
    var pos: nat, ended := taken, false;
    rest := [];
    d.PlaceIsTaken();
    while !ended
      invariant pos <= |data| && d.Valid() && d.d.input == data[..pos] && (d.finishing ==> pos == |data|)
      invariant d.Output() == old(d.Output()) + rest && d.d.Place() <= |data| && (ended ==> Complete(d, data))
      decreases !ended, !d.finishing, |data| - d.d.Place(), |d.d.bs.w.pending|
    {
      var ret, used, out := d.Deflate(data[pos..], room, Deflating.Finish);
      assert data[..pos] + data[pos..][..used] == data[..pos + used];
      pos := pos + used;
      rest := rest + out;
      d.PlaceIsTaken();
      assert pos == |data| ==> data[..pos] == data;
      ended := ret.Z_STREAM_END?;
    }
  }

  /**
   Data deflated at any level with any strategy in any pieces, and the stream inflated in any other pieces. Once
   deflate() says that the stream has ended, the output is a beginning of the data that was taken, there is no error,
   and it is all of it when inflate() says so; and inflate() says so when it has had the whole stream and room to spare.
   deflate() says so, and has taken all of the data, when it is asked for the end and has room to spare.
   */
  method DeflateInflate(level: nat, strategy: Deflating.Strategy, wSize: nat, hp: HashParams, config: Deflating.Config,
                        litBufsize: nat, data: seq<byte>, calls: seq<Call>, pieces: seq<Piece>)
    returns (stream: seq<byte>, taken: nat, ended: bool, spare: bool, o: Outcome)
    requires 512 <= wSize <= 32768 && GoodHash(hp) && 2 <= litBufsize <= 0x8000
    requires level <= 9 && (level > 0 ==> config.maxChain >= 4)
    ensures taken <= |data|
    ensures FinishLast(data, calls) && AsksForEnd(calls) && spare ==> ended && taken == |data|
    ensures ended ==> o.out <= data[..taken] && !o.ret.DataError? && (o.ret.StreamEnd? ==> o.out == data[..taken])
    ensures ended && o.pos == |stream| && o.spare ==> o.ret.StreamEnd?
  {
    hide Inflater.Inv, Reach, BytesBits, Next, GoodHash;
    var d := new DeflateStreams.DeflateStream(level, strategy, wSize, hp, config, litBufsize);
    stream, taken, ended, spare := DeflatePieces(d, data, calls);
    ghost var end := d.d.bs.reader;
    var z := new Inflater();
    o := InflatePieces(z, stream, pieces);
    if ended {
      Recovered(stream, end, o, z.d.abs);
    }
  }

  /** inflate() with all that is left of the stream, over and over, until it says that the stream has ended. */
  method InflateRest(z: Inflater, stream: seq<byte>, o0: Outcome, room: nat, ghost end: State) returns (o: Outcome)
    requires z.AtRest() && RunOver(stream, o0, z.d.abs) && z.d.r.given == stream[..o0.pos] && room > 0
    requires Reach(BytesBits(stream), START, end) && end.mode.Done?
    modifies z, z.d, z.d.r, z.win, z.win.buf
    ensures o.ret.StreamEnd? && o.out == end.out
  {
    hide Inflater.Inv, Reach, BytesBits, Next;
    o := o0;
    Recovered(stream, end, o, z.d.abs);
    while !o.ret.StreamEnd?
      invariant z.AtRest() && RunOver(stream, o, z.d.abs) && z.d.r.given == stream[..o.pos]
      invariant o.out <= end.out && !o.ret.DataError? && (o.ret.StreamEnd? ==> o.out == end.out)
      decreases !o.ret.StreamEnd?, |end.out| - |o.out|
    {
      var buf := new byte[room];
      var used, written, ret := z.Inflate(stream[o.pos..], buf);
      assert stream[..o.pos] + stream[o.pos..][..used] == stream[..o.pos + used];
      assert o.pos + used == |stream| ==> stream[..o.pos + used] == stream;
      o := Outcome(o.out + buf[..written], o.pos + used, ret, written < buf.Length);
      Recovered(stream, end, o, z.d.abs);
    }
  }

  /**
   The round trip: any data, deflated at any level with any strategy in any calls and then to the end, and inflated in
   any calls and then to the end, comes back. Every loop of calls ends, however small the room is.
   */
  method RoundTrip(level: nat, strategy: Deflating.Strategy, wSize: nat, hp: HashParams, config: Deflating.Config,
                   litBufsize: nat, data: seq<byte>, calls: seq<Call>, room: nat, pieces: seq<Piece>, outRoom: nat)
    returns (stream: seq<byte>, back: seq<byte>)
    requires 512 <= wSize <= 32768 && GoodHash(hp) && 2 <= litBufsize <= 0x8000
    requires level <= 9 && (level > 0 ==> config.maxChain >= 4)
    requires FinishLast(data, calls) && room > 0 && outRoom > 0
    ensures back == data
  {
    hide Inflater.Inv, Reach, BytesBits, Next, GoodHash, FinishLast;
    var d := new DeflateStreams.DeflateStream(level, strategy, wSize, hp, config, litBufsize);
    var taken, ended, spare;
    stream, taken, ended, spare := DeflatePieces(d, data, calls);
    if ended {
      assert data[..taken] == data;
    } else {
      var rest := DeflateRest(d, data, taken, room);
      stream := stream + rest;
    }
    ghost var end := d.d.bs.reader;
    var z := new Inflater();
    var o := InflatePieces(z, stream, pieces);
    o := InflateRest(z, stream, o, outRoom, end);
    back := o.out;
  }

  /**
   inflate and inflateBack over one stream, each in pieces of its own: what inflate decodes to the end inflateBack
   decodes to the same bytes, if out() succeeds; and that is only asked for full windows and for the rest.
   */
  method InflateBoth(stream: seq<byte>, pieces: seq<Piece>, window: array<byte>, first: seq<byte>,
                     chunks: seq<seq<byte>>, quota: nat)
    returns (o: Outcome, ret: BackRet, outs: seq<seq<byte>>)
    requires window.Length == WSIZE && stream == first + Rest(chunks)
    modifies window
    ensures ret.BackEnd? ==> |outs| <= quota
    ensures o.ret.StreamEnd? ==> !ret.BackDataError? && (ret.BackEnd? <==> |outs| <= quota)
    ensures o.ret.StreamEnd? && |o.out| <= WSIZE * quota ==> ret.BackEnd?
    ensures o.ret.StreamEnd? && ret.BackEnd? ==> Flat(outs) == o.out
  {
    hide Inflater.Inv, BackInflater.Inv, Reach, BytesBits, Next, Flat, Rest;
    var z := new Inflater();
    o := InflatePieces(z, stream, pieces);
    var b := new BackInflater(window, first, chunks, quota);
    ghost var offset;
    ret, offset := b.InflateBack();
    outs := b.outs;
    if o.ret.StreamEnd? {
      ghost var given := stream[..o.pos];
      OneRun(stream, given, z.d.abs);
      BackAgrees(stream, z.d.abs, b.w0, b.d.r.given, b.d.abs, outs, quota, ret, offset);
    }
  }
}
