/** The circular window of inflate.c: updatewindow keeps the last 32K of all output in it. */
module Windows {
  import opened Bits

  const WSIZE := 32768

  /** The place k bytes back from place write of a circular buffer. */
  function Back(write: nat, k: nat): int
  {
    if k <= write then write - k else write + WSIZE - k
  }

  function Min(a: nat, b: nat): nat
  {
    if a < b then a else b
  }

  /** win holds the last whave bytes of the history hist, ending before place write. */
  ghost predicate Recent(win: seq<byte>, write: nat, whave: nat, hist: seq<byte>)
  {
    && |win| == WSIZE && write < WSIZE && whave == Min(|hist|, WSIZE) && (whave < WSIZE ==> write == whave)
    && forall k: nat :: 1 <= k <= whave ==> win[Back(write, k)] == hist[|hist| - k]
  }

  /** w1 is w0 with the bytes s from place to on. */
  ghost predicate Pasted(w0: seq<byte>, w1: seq<byte>, to: nat, s: seq<byte>)
  {
    && |w1| == |w0| && to + |s| <= |w0|
    && (forall i :: to <= i < to + |s| ==> w1[i] == s[i - to])
    && forall i :: 0 <= i < |w0| && !(to <= i < to + |s|) ==> w1[i] == w0[i]
  }

  /** More output than the window holds: its last 32K. */
  lemma AllNew(win: seq<byte>, hist: seq<byte>, out: seq<byte>)
    requires |win| == WSIZE <= |out| && win == out[|out| - WSIZE..]
    ensures Recent(win, 0, WSIZE, hist + out)
  {
    forall k: nat | 1 <= k <= WSIZE
      ensures win[Back(0, k)] == (hist + out)[|hist + out| - k]
    {
    }
  }

  /** The output fits before the end of the window. */
  lemma NoWrap(w0: seq<byte>, w1: seq<byte>, write: nat, whave: nat, hist: seq<byte>, out: seq<byte>)
    requires Recent(w0, write, whave, hist) && Pasted(w0, w1, write, out) && |out| < WSIZE
    ensures Recent(w1, if write + |out| == WSIZE then 0 else write + |out|, if whave < WSIZE then whave + |out|
             else whave, hist + out)
  {
    var write1 := if write + |out| == WSIZE then 0 else write + |out|;
    var whave1 := if whave < WSIZE then whave + |out| else whave;
    forall k: nat | 1 <= k <= whave1
      ensures w1[Back(write1, k)] == (hist + out)[|hist + out| - k]
    {
      if k <= |out| {
        assert w1[write + (|out| - k)] == out[|out| - k];
      } else {
        assert w0[Back(write, k - |out|)] == hist[|hist| - (k - |out|)];
      }
    }
  }

  /** It runs over the end: the rest goes to the start. */
  lemma Wraps(w0: seq<byte>, w1: seq<byte>, w2: seq<byte>, write: nat, whave: nat, hist: seq<byte>, out: seq<byte>)
    requires Recent(w0, write, whave, hist) && write + |out| > WSIZE && |out| < WSIZE
    requires Pasted(w0, w1, write, out[..WSIZE - write]) && Pasted(w1, w2, 0, out[WSIZE - write..])
    ensures Recent(w2, |out| - (WSIZE - write), WSIZE, hist + out)
  {
    var dist := WSIZE - write;
    var write1 := |out| - dist;
    forall k: nat | 1 <= k <= WSIZE
      ensures w2[Back(write1, k)] == (hist + out)[|hist + out| - k]
    {
      if k <= write1 {
        assert w2[0 + (write1 - k)] == out[dist..][write1 - k];
      } else if k <= |out| {
        assert w1[write + (|out| - k)] == out[..dist][|out| - k];
      } else {
        assert w0[Back(write, k - |out|)] == hist[|hist| - (k - |out|)];
      }
    }
  }

  lemma Fresh(win: seq<byte>)
    requires |win| == WSIZE
    ensures Recent(win, 0, 0, [])
  {
  }

  lemma PasteNothing(w0: seq<byte>, to: nat)
    requires to <= |w0|
    ensures Pasted(w0, w0, to, [])
  {
  }

  lemma PasteOne(w0: seq<byte>, w1: seq<byte>, to: nat, s: seq<byte>, b: byte)
    requires Pasted(w0, w1, to, s) && to + |s| < |w0|
    ensures to + |s| < |w1| && Pasted(w0, w1[to + |s| := b], to, s + [b])
  {
  }

  class Window {
    const buf: array<byte>
    /** 0 while the window is not in use. */
    var wsize: nat
    var whave: nat
    var write: nat

    /** The window in use holds the end of hist; not in use, it is empty. */
    ghost predicate Keeps(hist: seq<byte>)
      reads this, buf
    {
      && buf.Length == WSIZE
      && if wsize == 0 then whave == 0 && write == 0 else wsize == WSIZE && Recent(buf[..], write, whave, hist)
    }

    constructor ()
      ensures wsize == 0 && fresh(buf) && Keeps([])
    {
      buf := new byte[WSIZE](_ => 0);
      wsize, whave, write := 0, 0, 0;
    }

    /** zmemcpy. */
    method MemCpy(to: nat, src: array<byte>, from: nat, n: nat)
      requires src != buf && to + n <= buf.Length && from + n <= src.Length
      modifies buf
      ensures Pasted(old(buf[..]), buf[..], to, src[from..from + n])
    {
      hide Pasted;
      ghost var w0, s := buf[..], src[..];
      PasteNothing(w0, to);
      assert s[from..from] == [];
      for i := 0 to n
        invariant Pasted(w0, buf[..], to, s[from..from + i]) && src[..] == s
      {
        PasteOne(w0, buf[..], to, s[from..from + i], s[from + i]);
        assert s[from..from + i] + [s[from + i]] == s[from..from + i + 1];
        ghost var w1 := buf[..];
        buf[to + i] := src[from + i];
        assert buf[..] == w1[to + i := s[from + i]];
      }
    }

    /** updatewindow: takes the put bytes that a call of inflate has written into the window. */
    method UpdateWindow(out: array<byte>, put: nat, ghost hist: seq<byte>)
      requires out != buf && put <= out.Length && Keeps(hist) && (wsize == 0 ==> hist == [])
      modifies this, buf
      ensures wsize == WSIZE && Keeps(hist + out[..put])
    {
      hide Recent, Pasted;
      if wsize == 0 {
        wsize := WSIZE;
        write := 0;
        whave := 0;
        Fresh(buf[..]);
      }
      ghost var w0 := buf[..];
      ghost var o := out[..put];
      assert write < WSIZE by { Bounds(w0, write, whave, hist); }
      var copy := put;
      if copy >= wsize {
        MemCpy(0, out, put - wsize, wsize);
        write := 0;
        whave := wsize;
        assert buf[..] == o[put - WSIZE..] by { Whole(w0, buf[..], out[put - WSIZE..put]); }
        AllNew(buf[..], hist, o);
      } else {
        var dist := wsize - write;
        if dist > copy {
          dist := copy;
        }
        MemCpy(write, out, put - copy, dist);
        copy := copy - dist;
        assert out[..put][..dist] == out[..dist];
        if copy != 0 {
          ghost var w1 := buf[..];
          MemCpy(0, out, put - copy, copy);
          assert o[dist..] == out[dist..put];
          Wraps(w0, w1, buf[..], write, whave, hist, o);
          write := copy;
          whave := wsize;
        } else {
          assert out[..dist] == o;
          NoWrap(w0, buf[..], write, whave, hist, o);
          write := write + dist;
          if write == wsize {
            write := 0;
          }
          if whave < wsize {
            whave := whave + dist;
          }
        }
      }
    }
  }

  lemma Bounds(win: seq<byte>, write: nat, whave: nat, hist: seq<byte>)
    requires Recent(win, write, whave, hist)
    ensures write < WSIZE && whave <= WSIZE && |win| == WSIZE
  {
  }

  lemma Whole(w0: seq<byte>, w1: seq<byte>, s: seq<byte>)
    requires Pasted(w0, w1, 0, s) && |s| == |w0|
    ensures w1 == s
  {
    forall i | 0 <= i < |s|
      ensures w1[i] == s[i]
    {
      assert w1[0 + i] == s[i];
    }
  }
}
