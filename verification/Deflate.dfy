/** The LZ77 half of deflate.c. */
module Deflating {
  import opened Shift
  import opened Bits
  import opened Format
  import opened BlockCode
  import opened BlockRoundTrip
  import opened Hashing
  import opened LzWindow
  import opened BlockWriting
  import opened BlockStates
  import opened BitWriting

  datatype Strategy = Default | Filtered | HuffmanOnly | Rle | Fixed
  datatype Flush = NoFlush | PartialFlush | SyncFlush | FullFlush | Finish
  datatype Result = NeedMore | BlockDone | FinishStarted | FinishDone

  const TOO_FAR := 4096

  /** A row of configuration_table. */
  datatype Config = Config(goodLength: nat, maxLazy: nat, niceLength: nat, maxChain: nat)

  class Deflater {
    const bs: BlockState
    const wSize: nat
    const hp: HashParams
    const config: Config
    const strategy: Strategy
    /** Twice the window size: input is read into the upper half and moved down. */
    const window: array<byte>
    const head: array<nat>
    const prev: array<nat>
    var insH: nat
    var strstart: nat
    var lookahead: nat
    var blockStart: int
    var matchStart: int
    var matchLength: nat
    var prevMatch: int
    var prevLength: nat
    var matchAvailable: bool
    /** Input not read yet, and room for output. */
    var nextIn: seq<byte>
    var availOut: nat
    /**
     All input read so far; index i of the window is position base + i of it. The inserted positions lie before top.
     */
    ghost var input: seq<byte>
    ghost var base: nat
    ghost var ins: set<nat>
    ghost var top: nat

    function MaxDist(): nat
      requires wSize >= 512
    {
      wSize - MIN_LOOKAHEAD
    }

    ghost predicate Shape()
    {
      && 512 <= wSize <= 32768 && GoodHash(hp) && (bs.level > 0 ==> config.maxChain >= 4)
      && window.Length == 2 * wSize && prev.Length == wSize && head.Length == Pow2(hp.bits)
      && head != prev && (window as object) != head && (window as object) != prev && head !in bs.Repr()
          && prev !in bs.Repr() && window !in bs.Repr() && this !in bs.Repr()
    }

    /** The window holds the input, up to index end. */
    ghost predicate DataTo(end: nat)
      reads `input, `base, window
    {
      end <= 2 * wSize && LzWindow.Holds(window[..], input, base, end)
    }

    ghost predicate DataOk()
      reads `strstart, `lookahead, `input, `base, window
    {
      DataTo(strstart + lookahead)
    }

    /** The chains are right, and nothing from index str on is inserted. */
    ghost predicate ChainOk(str: nat)
      reads `input, `base, `ins, `top, head, prev
    {
      Chain(hp, wSize, head[..], prev[..], input, base, ins, top) && top <= base + str
    }

    /** With three bytes ahead the running hash stands behind the first two. */
    ghost predicate HashOk()
      reads `insH, `strstart, `lookahead, window
    {
      lookahead >= MIN_MATCH && strstart + 1 < window.Length ==>
          Primed(hp, insH, window[strstart], window[strstart + 1])
    }

    /** How far the input is entered or emitted: the position of strstart in it. */
    ghost function Place(): nat
      reads `base, `strstart
    {
      base + strstart
    }

    lemma WindowIs(i: nat, end: nat)
      requires DataTo(end) && i < end
      ensures i < window.Length && base + i < |input| && window[i] == input[base + i]
    {
      assert window[..end][i] == input[base..][i];
    }

    constructor (level: nat, strategy: Strategy, wSize: nat, hp: HashParams, config: Config, litBufsize: nat)
      requires 512 <= wSize <= 32768 && GoodHash(hp) && 2 <= litBufsize <= 0x8000
      requires level > 0 ==> config.maxChain >= 4
      ensures fresh(bs.Repr()) && fresh(window) && fresh(head) && fresh(prev) && bs.reader == START && input == []
      ensures bs.w.output == []
      ensures Shape() && bs.level == level
      ensures level == 0 ==> StoredOk()
      ensures level > 0 ==> SlowOk() && FastOk()
    {
      hide Chain, LzWindow.Holds, InReach, GoodHash, Primed, Expand, GoodTokens, BlockState.Valid, Deflater.StoredOk,
           Deflater.SlowOk, Deflater.FastOk, Deflater.Emitted, Deflater.ChainOk, Deflater.DataOk;
      var b := new BlockState(level, strategy.Fixed?, litBufsize);
      this.bs, this.wSize, this.hp, this.config, this.strategy := b, wSize, hp, config, strategy;
      window := new byte[2 * wSize](_ => 0);
      head := new nat[Pow2(hp.bits)](_ => 0);
      prev := new nat[wSize](_ => 0);
      insH, strstart, lookahead, blockStart := 0, 0, 0, 0;
      matchStart, matchLength, prevMatch, prevLength, matchAvailable := 0, MIN_MATCH - 1, 0, MIN_MATCH - 1, false;
      nextIn, availOut := [], 0;
      input, base, ins, top := [], 0, {}, 0;
      new;
      Starting();
    }

    /** The state before any input. */
    lemma Starting()
      requires Shape() && bs.Valid() && bs.lastLit == 0 && bs.reader == START && input == [] && base == 0 && ins == {}
      requires top == 0
      requires strstart == 0 && lookahead == 0 && blockStart == 0 && matchLength == prevLength == MIN_MATCH - 1
      requires !matchAvailable
      requires (forall i :: 0 <= i < head.Length ==> head[i] == 0) && forall i :: 0 <= i < prev.Length ==> prev[i] == 0
      ensures bs.level == 0 ==> StoredOk()
      ensures bs.level > 0 ==> SlowOk() && FastOk()
    {
      hide Chain, BlockState.Valid, Expand, GoodTokens, InReach, Primed;
      ChainStarts(hp, wSize, head[..], prev[..]);
      NoneFar(MaxDist());
      EmptyBlock();
      LitBuf();
      assert input[..0] == [];
    }

    /** INSERT_STRING: enters the string at index str, and gives the head of its chain so far. */
    method InsertString(str: nat, ghost end: nat) returns (matchHead: nat)
      requires Shape() && DataTo(end) && ChainOk(str) && str + 2 < end
      requires Primed(hp, insH, window[str], window[str + 1])
      modifies `insH, head, prev, `ins, `top
      ensures ChainOk(str + 1) && top == base + str + 1 && base + str + 2 < |input|
      ensures Primed(hp, insH, window[str + 1], window[str + 2])
      ensures Leads(hp, input, base, ins, matchHead, base + str, HashAt(hp, input, base + str))
    {
      hide Chain, Primed, Hash, UpdateHash, Leads, Pow2;
      WindowIs(str, end);
      WindowIs(str + 1, end);
      WindowIs(str + 2, end);
      PrimedUpdate(hp, insH, window[str], window[str + 1], window[str + 2]);
      Inserted(hp, wSize, head[..], prev[..], input, base, ins, top, str);
      insH := UpdateHash(hp, insH, window[str + 2]);
      matchHead := head[insH];
      SetEntry(prev, str % wSize, matchHead);
      SetEntry(head, insH, str);
      MoreLeads(hp, input, base, ins, base + str, matchHead, base + str, insH);
      ins := ins + {base + str};
      top := base + str + 1;
    }

    /** How many bytes from the third on match, up to MAX_MATCH. */
    method Compare(cur: nat) returns (len: nat)
      requires Shape() && cur <= strstart <= 2 * wSize - MIN_LOOKAHEAD
      ensures 3 <= len <= MAX_MATCH
      ensures forall k :: strstart + 3 <= k < strstart + len ==> window[k - (strstart - cur)] == window[k]
      ensures len == MAX_MATCH || window[strstart + len] != window[cur + len]
    {
      var i := 2;
      while true
        invariant 2 <= i < MAX_MATCH
        invariant forall k :: strstart + 3 <= k < strstart + i + 1 ==> window[k - (strstart - cur)] == window[k]
        decreases MAX_MATCH - i
      {
        i := i + 1;
        if window[strstart + i] != window[cur + i] || i >= MAX_MATCH {
          break;
        }
      }
      len := i;
    }

    /** A place on the hash chain of the string at strstart, within reach. */
    ghost predicate OnChain(cur: nat)
      reads `input, `base, `ins, `strstart
    {
      && base + strstart + 2 < |input| && cur < strstart && strstart - cur <= wSize - MIN_LOOKAHEAD
      && base + cur in ins && base + cur + 2 < |input| && HashAt(hp, input, base + cur)
          == HashAt(hp, input, base + strstart)
    }

    /** len is the length of a match with the string at start, as far as there is input. */
    ghost predicate GoodMatch(start: int, len: nat)
      reads `input, `base, `strstart, `lookahead
    {
      && 0 <= base + start && start < strstart && strstart - start <= wSize - MIN_LOOKAHEAD
      && Matching(input, base + start, base + strstart, if len <= lookahead then len else lookahead)
    }

    /** The first two bytes, and with them the third by its hash. */
    lemma FirstThree(cur: nat)
      requires Shape() && DataOk() && OnChain(cur) && lookahead >= MIN_MATCH && strstart <= 2 * wSize - MIN_LOOKAHEAD
      requires window[cur] == window[strstart] && window[cur + 1] == window[strstart + 1]
      ensures base + strstart + 2 < |input|
      ensures forall k :: base + strstart <= k < base + strstart + 3 ==> input[k - (strstart - cur)] == input[k]
    {
      hide Hash, LzWindow.Holds;
      var end := strstart + lookahead;
      WindowIs(cur, end);
      WindowIs(cur + 1, end);
      WindowIs(strstart, end);
      WindowIs(strstart + 1, end);
      ThirdByte(hp, input[base + cur], input[base + cur + 1], input[base + cur + 2], input[base + strstart + 2]);
    }

    /** The bytes compared, and the third by its hash, make a match. */
    lemma ComparedIsMatch(cur: nat, len: nat)
      requires Shape() && DataOk() && OnChain(cur) && lookahead >= MIN_MATCH && 3 <= len <= MAX_MATCH
      requires strstart <= 2 * wSize - MIN_LOOKAHEAD
      requires window[cur] == window[strstart] && window[cur + 1] == window[strstart + 1]
      requires forall k :: strstart + 3 <= k < strstart + len ==> window[k - (strstart - cur)] == window[k]
      ensures GoodMatch(cur, len)
    {
      hide Hash, HashAt, LzWindow.Holds;
      var n := if len <= lookahead then len else lookahead;
      var d := strstart - cur;
      DataBounds();
      FirstThree(cur);
      forall k | base + strstart <= k < base + strstart + n
        ensures input[k - d] == input[k]
      {
        var j := k - base;
        if j >= strstart + 3 {
          WindowIs(j, strstart + lookahead);
          WindowIs(j - d, strstart + lookahead);
          assert window[j - (strstart - cur)] == window[j];
        }
      }
    }

    /** There is no match with the string at cur longer than len. */
    ghost predicate NoLonger(cur: nat, len: nat)
      reads `input, `base, `strstart, `lookahead
    {
      len < lookahead && len < MAX_MATCH ==> !Matching(input, base + cur, base + strstart, len + 1)
    }

    /** A byte that differs rules out every match it would be part of. */
    lemma Differs(cur: nat, i: nat, len: nat)
      requires Shape() && DataOk() && OnChain(cur) && i <= len && strstart + i < window.Length
      requires window[cur + i] != window[strstart + i]
      ensures NoLonger(cur, len)
    {
      hide Hash, HashAt, LzWindow.Holds;
      if len < lookahead && len < MAX_MATCH && Matching(input, base + cur, base + strstart, len + 1) {
        ByteOfMatch(input, base + cur, base + strstart, len + 1, i);
        WindowIs(cur + i, strstart + lookahead);
        WindowIs(strstart + i, strstart + lookahead);
      }
    }

    /** No match with a string visited is longer than len. */
    ghost predicate Longest(visited: seq<nat>, len: nat)
      reads `input, `base, `strstart, `lookahead
    {
      forall p :: p in visited ==> NoLonger(p, len)
    }

    lemma LongestStays(visited: seq<nat>, len: nat, cur: nat, len1: nat)
      requires Longest(visited, len) && len <= len1 && NoLonger(cur, len1)
      ensures Longest(visited + [cur], len1)
    {
      forall p | p in visited
        ensures NoLonger(p, len1)
      {
        assert NoLonger(p, len);
      }
    }

    /** The places visited: from cur on along the chain. */
    ghost predicate Trail(visited: seq<nat>, cur: nat)
      requires wSize > 0 && prev.Length == wSize
      reads prev
    {
      && visited != [] && visited[0] == cur
      && forall i :: 0 <= i < |visited| - 1 ==> visited[i + 1] == prev[visited[i] % wSize]
    }

    /** One string compared with the one at strstart, if the bytes that a better match needs are there. */
    method Examine(cur: nat, bestLen: nat, scanEnd1: byte, scanEnd: byte) returns (l: nat)
      requires Shape() && DataOk() && cur <= strstart <= 2 * wSize - MIN_LOOKAHEAD && 1 <= bestLen <= MAX_MATCH
      requires scanEnd1 == window[strstart + bestLen - 1] && scanEnd == window[strstart + bestLen]
      requires lookahead >= MIN_MATCH ==> OnChain(cur)
      ensures l <= MAX_MATCH
      ensures lookahead >= MIN_MATCH && l > bestLen ==> GoodMatch(cur, l)
      ensures lookahead >= MIN_MATCH ==> NoLonger(cur, if l > bestLen then l else bestLen)
    {
      hide OnChain, GoodMatch, NoLonger, DataOk;
      if window[cur + bestLen] != scanEnd || window[cur + bestLen - 1] != scanEnd1
         || window[cur] != window[strstart] || window[cur + 1] != window[strstart + 1] {
        if lookahead >= MIN_MATCH {
          var i := if window[cur + bestLen] != scanEnd then bestLen else if window[cur + bestLen - 1] != scanEnd1
              then bestLen - 1
                   else if window[cur] != window[strstart] then 0 else 1;
          Differs(cur, i, bestLen);
        }
        return 0;
      }
      l := Compare(cur);
      if lookahead >= MIN_MATCH {
        ComparedIsMatch(cur, l);
        if l < MAX_MATCH {
          Differs(cur, l, if l > bestLen then l else bestLen);
        } else {
          WholeMatch(cur, if l > bestLen then l else bestLen);
        }
      }
    }

    lemma WholeMatch(cur: nat, len: nat)
      requires len >= MAX_MATCH
      ensures NoLonger(cur, len)
    {
    }

    /** The next place on the chain, if it is within reach. */
    lemma NextOnChain(cur: nat, limit: nat)
      requires Shape() && ChainOk(strstart + 1) && OnChain(cur)
      requires limit == (if strstart > MaxDist() then strstart - MaxDist() else 0)
      ensures prev[cur % wSize] > limit ==> OnChain(prev[cur % wSize])
    {
      hide Hash, HashAt, Chain;
      LeadsOn(hp, wSize, head[..], prev[..], input, base, ins, top, cur);
    }

    lemma ChainBelow(cur: nat)
      requires Shape() && ChainOk(strstart + 1)
      ensures prev[cur % wSize] <= strstart
    {
      assert prev[..][cur % wSize] == 0 || base + prev[..][cur % wSize] < top;
    }

    /** How many strings longest_match compares at most. */
    function ChainLimit(): nat
      reads `prevLength
    {
      if prevLength >= config.goodLength then config.maxChain / 4 else config.maxChain
    }

    /** A match as long as this is good enough. */
    function NiceLength(): nat
      reads `lookahead
    {
      if config.niceLength > lookahead then lookahead else config.niceLength
    }

    /** Places as far back as this are out of reach. */
    function Limit(): nat
      requires wSize >= 512
      reads `strstart
    {
      if strstart > MaxDist() then strstart - MaxDist() else 0
    }

    /**
     Why the search along the chain has ended: a match is nice enough, or the chain is at its end or at the limit of its
     length.
     */
    ghost predicate SearchOver(visited: seq<nat>, bestLen: nat)
      requires wSize >= 512 && prev.Length == wSize
      reads prev, `lookahead, `strstart, `prevLength
    {
      visited != [] && (bestLen >= NiceLength() || prev[visited[|visited| - 1] % wSize] <= Limit()
          || |visited| == ChainLimit())
    }

    /**
     longest_match: a match longer than prevLength with a string on the chain from curMatch, cut to the
     lookahead, and no string visited has a longer one. If fewer than three bytes are ahead curMatch may be
     stale, and the result is at most 2.
     */
    method LongestMatch(curMatch: nat) returns (len: nat, ghost visited: seq<nat>)
      requires Shape() && DataOk() && ChainOk(strstart + 1) && curMatch <= strstart <= 2 * wSize - MIN_LOOKAHEAD
      requires bs.level > 0 && 1 <= prevLength <= MAX_MATCH && (lookahead >= MIN_MATCH ==> OnChain(curMatch))
      modifies `matchStart
      ensures len <= lookahead && len <= MAX_MATCH && (lookahead > 0 ==> len > 0)
      ensures lookahead >= MIN_MATCH && len > prevLength ==> GoodMatch(matchStart, len)
      ensures Trail(visited, curMatch) && (SearchOver(visited, len) || len == lookahead)
      ensures lookahead >= MIN_MATCH ==>
               Longest(visited, len) && len >= if prevLength <= lookahead then prevLength else lookahead
    {
      hide Chain, GoodMatch, OnChain, DataOk, NoLonger, Longest, InReach, LzWindow.Holds;
      var chainLength: nat := config.maxChain;
      var cur: nat, bestLen: nat := curMatch, prevLength;
      var limit := Limit();
      var scanEnd1, scanEnd := window[strstart + bestLen - 1], window[strstart + bestLen];
      if prevLength >= config.goodLength {
        chainLength := chainLength / 4;
      }
      var niceMatch := NiceLength();
      visited := [];
      NoneVisited(bestLen);
      while true
        invariant cur <= strstart && prevLength <= bestLen <= MAX_MATCH && chainLength >= 1
        invariant |visited| + chainLength == ChainLimit()
        invariant scanEnd1 == window[strstart + bestLen - 1] && scanEnd == window[strstart + bestLen]
        invariant lookahead >= MIN_MATCH ==> OnChain(cur)
        invariant lookahead >= MIN_MATCH && bestLen > prevLength ==> GoodMatch(matchStart, bestLen)
        invariant Trail(visited + [cur], curMatch) && (lookahead >= MIN_MATCH ==> Longest(visited, bestLen))
        decreases chainLength
      {
        var l := Examine(cur, bestLen, scanEnd1, scanEnd);
        if lookahead >= MIN_MATCH {
          LongestStays(visited, bestLen, cur, if l > bestLen then l else bestLen);
        }
        visited := visited + [cur];
        if l > bestLen {
          matchStart := cur;
          bestLen := l;
          if l >= niceMatch {
            break;
          }
          scanEnd1, scanEnd := window[strstart + bestLen - 1], window[strstart + bestLen];
        }
        if lookahead >= MIN_MATCH {
          NextOnChain(cur, limit);
        }
        ChainBelow(cur);
        cur := prev[cur % wSize];
        if cur <= limit {
          break;
        }
        chainLength := chainLength - 1;
        if chainLength == 0 {
          break;
        }
      }
      len := if bestLen <= lookahead then bestLen else lookahead;
      CutMatch(bestLen);
      CutLongest(visited, bestLen);
    }

    lemma NoneVisited(len: nat)
      ensures Longest([], len)
    {
    }

    lemma CutLongest(visited: seq<nat>, len: nat)
      ensures len > lookahead ==> Longest(visited, lookahead)
    {
    }

    lemma CutMatch(len: nat)
      ensures len > lookahead ==> GoodMatch(matchStart, len) == GoodMatch(matchStart, lookahead)
    {
    }

    /** longest_match_fast: the match with the string at curMatch alone. */
    method LongestMatchFast(curMatch: nat) returns (len: nat)
      requires Shape() && DataOk() && curMatch <= strstart <= 2 * wSize - MIN_LOOKAHEAD
      requires lookahead >= MIN_MATCH ==> OnChain(curMatch)
      modifies `matchStart
      ensures len <= MAX_MATCH && (lookahead > 0 ==> len > 0)
      ensures len >= MIN_MATCH ==> len <= lookahead && GoodMatch(matchStart, len)
    {
      hide GoodMatch, OnChain;
      if window[curMatch] != window[strstart] || window[curMatch + 1] != window[strstart + 1] {
        return MIN_MATCH - 1;
      }
      var l := Compare(curMatch);
      if lookahead >= MIN_MATCH {
        ComparedIsMatch(curMatch, l);
      }
      matchStart := curMatch;
      len := if l <= lookahead then l else lookahead;
      CutMatch(l);
    }

    // ---------- fill_window ----------

    /** zmemcpy(window, window + wsize, wsize). */
    method CopyDown()
      requires Shape() && DataOk() && wSize <= strstart + lookahead
      modifies window
      ensures LzWindow.Holds(window[..], input, base + wSize, strstart + lookahead - wSize)
      ensures forall i :: 0 <= i < wSize ==> window[i] == old(window[i + wSize])
    {
      ghost var win := window[..];
      forall i | 0 <= i < wSize {
        window[i] := window[i + wSize];
      }
      SlidData(win, window[..], input, base, strstart + lookahead, wSize);
    }

    /** Moves the upper half of the window down, and the tables with it. */
    method Slide()
      requires Shape() && DataOk() && ChainOk(strstart) && HashOk() && strstart >= wSize + MaxDist()
      requires lookahead < MIN_LOOKAHEAD
      modifies window, head, prev, `strstart, `matchStart, `blockStart, `base
      ensures DataOk() && ChainOk(strstart) && HashOk() && strstart == old(strstart) - wSize
      ensures base == old(base) + wSize
      ensures matchStart == old(matchStart) - wSize && blockStart == old(blockStart) - wSize
    {
      hide Chain, Primed, Pow2, LzWindow.Holds;
      CopyDown();
      SlideKeeps(hp, wSize, head[..], prev[..], input, base, ins, top);
      matchStart := matchStart - wSize;
      strstart := strstart - wSize;
      blockStart := blockStart - wSize;
      SlideTable(head, wSize);
      SlideTable(prev, wSize);
      base := base + wSize;
    }

    /** zmemcpy(buf, next_in, n). */
    method CopyIn(at: nat, n: nat)
      requires Shape() && DataOk() && at == strstart + lookahead && n <= |nextIn| && at + n <= 2 * wSize
      modifies window
      ensures LzWindow.Holds(window[..], input + nextIn[..n], base, at + n)
      ensures forall i :: 0 <= i < at ==> window[i] == old(window[i])
    {
      ghost var win := window[..];
      forall i | 0 <= i < n {
        window[at + i] := nextIn[i];
      }
      ReadData(win, window[..], input, base, at, nextIn[..n]);
    }

    /** read_buf: reads up to more bytes into the window. */
    method ReadBuf(more: nat) returns (n: nat)
      requires Shape() && DataOk() && ChainOk(strstart) && more == 2 * wSize - lookahead - strstart
      modifies window, `nextIn, `input, `lookahead
      ensures DataOk() && ChainOk(strstart) && lookahead == old(lookahead) + n && n + |nextIn| == |old(nextIn)|
      ensures (n == more || nextIn == []) && input + nextIn == old(input + nextIn) && old(input) <= input
      ensures forall i :: 0 <= i < old(strstart + lookahead) ==> window[i] == old(window[i])
    {
      hide Chain, Pow2, LzWindow.Holds;
      n := |nextIn|;
      if n > more {
        n := more;
      }
      CopyIn(strstart + lookahead, n);
      MoreKeeps(hp, wSize, head[..], prev[..], input, nextIn[..n], base, ins, top);
      assert input + nextIn[..n] + nextIn[n..] == input + nextIn;
      input := input + nextIn[..n];
      nextIn := nextIn[n..];
      lookahead := lookahead + n;
    }

    /** Starts the running hash again at strstart. */
    method StartHash()
      requires Shape() && strstart + 1 < 2 * wSize
      modifies `insH
      ensures HashOk()
    {
      hide Primed, UpdateHash;
      insH := window[strstart];
      insH := UpdateHash(hp, insH, window[strstart + 1]);
      PrimedStart(hp, window[strstart], window[strstart + 1]);
    }

    /**
     fill_window: reads input until there is enough lookahead or no more input, sliding the window when
     it is almost full. Positions in the input stay what they are.
     */
    method FillWindow()
      requires Shape() && DataOk() && ChainOk(strstart) && HashOk() && lookahead < MIN_LOOKAHEAD
      modifies window, head, prev, `insH, `strstart, `lookahead, `matchStart, `blockStart, `nextIn, `input, `base
      ensures DataOk() && ChainOk(strstart) && HashOk() && strstart <= 2 * wSize - MIN_LOOKAHEAD
      ensures lookahead < MIN_LOOKAHEAD ==> nextIn == []
      ensures lookahead >= old(lookahead) && base + strstart == old(base + strstart)
      ensures base + matchStart == old(base + matchStart) && base + blockStart == old(base + blockStart)
      ensures input + nextIn == old(input + nextIn) && old(input) <= input
      ensures strstart == if old(strstart) >= wSize + MaxDist() then old(strstart) - wSize else old(strstart)
    {
      hide Chain, Primed, LzWindow.Holds, Pow2, UpdateHash;
      var more := 2 * wSize - lookahead - strstart;
      if strstart >= wSize + MaxDist() {
        Slide();
        more := more + wSize;
      }
      if nextIn == [] {
        return;
      }
      assert more >= 2;
      var n := ReadBuf(more);
      if lookahead >= MIN_MATCH {
        StartHash();
      }
      // one read fills the window or uses up the input, so the loop never goes round again
      assert !(lookahead < MIN_LOOKAHEAD && nextIn != []);
    }

    // ---------- emitting ----------

    /**
     The blocks flushed and the tokens tallied stand for the first n bytes of the input, and no copy reaches back
     further than MAX_DIST.
     */
    ghost predicate Emitted(n: nat)
      reads `input, `base, `blockStart, bs.Repr()
    {
      && bs.Valid() && bs.level > 0 && bs.reader.mode.Type? && !bs.reader.last && n <= |input|
      && Expand(bs.reader.out, bs.Toks()) == input[..n] && base + blockStart == |bs.reader.out|
      && wSize >= 512 && InReach(bs.Toks(), MaxDist()) && InReach(bs.reader.toks, MaxDist())
    }

    /** _tr_tally_lit for the byte at index i. */
    method TallyLit(i: nat, ghost end: nat) returns (bflush: bool)
      requires Shape() && DataTo(end) && i < end && Emitted(base + i) && bs.lastLit + 1 < bs.litBufsize
      modifies bs.Repr()
      ensures Emitted(base + i + 1) && (bflush <==> bs.lastLit == bs.litBufsize - 1) && bs.lastLit < bs.litBufsize
      ensures bs.reader == old(bs.reader) && bs.w.Sent() == old(bs.w.Sent()) && bs.w.output == old(bs.w.output)
    {
      hide Expand, GoodTokens, LzWindow.Holds, InReach, Chain, Counts, Tracks, BitWriter.Sent;
      WindowIs(i, end);
      ghost var toks, h := bs.Toks(), bs.reader.out;
      ExpandOneMore(h, toks, TokenAt(0, window[i]));
      ReachOne(TokenAt(0, window[i]), MaxDist());
      ReachAppend(toks, [TokenAt(0, window[i])], MaxDist());
      bflush := bs.Tally(0, window[i]);
      assert input[..base + i + 1] == input[..base + i] + [input[base + i]];
    }

    /** _tr_tally_dist for the match of len bytes of the string at index at with the one at start. */
    method TallyDist(at: nat, start: int, len: nat) returns (bflush: bool)
      requires Shape() && Emitted(base + at) && bs.lastLit + 1 < bs.litBufsize && MIN_MATCH <= len <= MAX_MATCH
      requires 0 <= base + start && 1 <= at - start <= wSize - MIN_LOOKAHEAD
      requires Matching(input, base + start, base + at, len)
      modifies bs.Repr()
      ensures Emitted(base + at + len) && (bflush <==> bs.lastLit == bs.litBufsize - 1) && bs.lastLit < bs.litBufsize
      ensures bs.reader == old(bs.reader) && bs.w.Sent() == old(bs.w.Sent()) && bs.w.output == old(bs.w.output)
    {
      hide Expand, GoodTokens, Matching, InReach, Chain, LzWindow.Holds, CopyBytes, Counts, Tracks;
      ghost var toks, h := bs.Toks(), bs.reader.out;
      var dist, lc := at - start, len - MIN_MATCH;
      ReachOne(TokenAt(dist, lc), MaxDist());
      ReachAppend(toks, [TokenAt(dist, lc)], MaxDist());
      MatchingFits(input, base + start, base + at, len);
      ExpandOneMore(h, toks, TokenAt(dist, lc));
      CopyIsInput(input, base + start, base + at, len);
      bflush := bs.Tally(dist, lc);
    }

    /** _tr_flush_block, then flush_pending. */
    method FlushData(buf: Option<seq<byte>>, storedLen: nat, eof: bool, ghost data: seq<byte>)
      requires Shape() && bs.Valid() && bs.reader.mode.Type? && !bs.reader.last && storedLen == |data|
      requires buf.Some? ==> buf.value == data && storedLen < 0x10000
      requires bs.level > 0 ==> Expand(bs.reader.out, bs.Toks()) == bs.reader.out + data
      requires bs.level == 0 ==> buf.Some? && bs.lastLit == 0
      requires InReach(bs.Toks(), MaxDist()) && InReach(bs.reader.toks, MaxDist())
      modifies bs.Repr(), `availOut
      ensures InReach(bs.reader.toks, MaxDist())
      ensures bs.Valid() && bs.lastLit == 0 && bs.reader.out == old(bs.reader.out) + data && bs.reader.last == eof
      ensures if eof then bs.reader.mode.Done? && bs.w.biValid == 0 else bs.reader.mode.Type?
      ensures |bs.w.output| + availOut == old(|bs.w.output| + availOut) && (availOut == 0 || bs.w.pending == [])
      ensures old(bs.w.output) <= bs.w.output
    {
      hide Expand, GoodTokens, StaticBits, DynamicBits, StoredBits, Cheapest3, Tracks, Counts, InReach;
      ReachAppend(bs.reader.toks, bs.Toks(), MaxDist());
      ghost var kind, t := bs.TrFlushBlock(buf, storedLen, eof, data);
      availOut := bs.FlushPending(availOut);
    }

    /** FLUSH_BLOCK_ONLY: the tokens, or the bytes they stand for, go out as a block. */
    method FlushBlockOnly(eof: bool)
      requires Shape() && DataOk() && Emitted(base + strstart) && (blockStart >= 0 ==> strstart - blockStart < 0x10000)
      modifies bs.Repr(), `blockStart, `availOut
      ensures bs.Valid() && bs.lastLit == 0 && bs.reader.out == input[..base + strstart] && blockStart == strstart
      ensures bs.reader.last == eof && InReach(bs.reader.toks, MaxDist())
      ensures if eof then bs.reader.mode.Done? && bs.w.biValid == 0
               else bs.reader.mode.Type? && Emitted(base + strstart)
      ensures |bs.w.output| + availOut == old(|bs.w.output| + availOut) && (availOut == 0 || bs.w.pending == [])
      ensures old(bs.w.output) <= bs.w.output
    {
      hide LzWindow.Holds, Expand, GoodTokens, BlockState.Valid, InReach;
      ghost var n0, n1 := base + blockStart, base + strstart;
      BlockData(n1);
      ghost var data := input[n0..n1];
      var buf := None;
      if blockStart >= 0 {
        BlockIs(blockStart);
        buf := Some(window[blockStart..strstart]);
      }
      FlushData(buf, strstart - blockStart, eof, data);
      blockStart := strstart;
      EmptyBlock();
      NoneFar(MaxDist());
    }

    lemma BlockData(n: nat)
      requires Emitted(n)
      ensures 0 <= base + blockStart <= n <= |input| && bs.reader.out == input[..base + blockStart]
      ensures input[..n] == input[..base + blockStart] + input[base + blockStart..n]
    {
      hide Expand, GoodTokens;
      ExpandGrows(bs.reader.out, bs.Toks());
    }

    lemma NoneTallied()
      requires bs.Valid() && bs.lastLit == 0
      ensures bs.Toks() == []
    {
    }

    lemma EmptyBlock()
      requires bs.Valid() && bs.lastLit == 0
      ensures bs.Toks() == [] && Expand(bs.reader.out, bs.Toks()) == bs.reader.out
    {
      NoTokens(bs.reader.out);
    }

    lemma BlockIs(from: nat)
      requires DataOk() && from <= strstart
      ensures strstart <= window.Length && base + strstart <= |input|
      ensures window[from..strstart] == input[base + from..base + strstart]
    {
      var end := strstart + lookahead;
      assert window[..end][from..strstart] == input[base..][from..strstart];
    }

    // ---------- deflate_fast ----------

    /** Between two turns of deflate_fast. */
    ghost predicate FastOk()
      reads this, window, head, prev, bs, bs.Repr()
    {
      && Shape() && DataOk() && ChainOk(strstart) && HashOk() && Emitted(base + strstart)
      && matchLength < MIN_MATCH && prevLength == MIN_MATCH - 1 && bs.level > 0 && bs.lastLit + 1 < bs.litBufsize
    }

    /** The strings inside a match are entered one by one. */
    method InsertMatch(ghost end: nat)
      requires Shape() && DataTo(end) && ChainOk(strstart + 1) && matchLength >= MIN_MATCH
      requires strstart + 1 < window.Length && strstart + 2 < window.Length
      requires Primed(hp, insH, window[strstart + 1], window[strstart + 2])
      requires strstart + matchLength + MIN_MATCH <= end
      modifies `insH, head, prev, `ins, `top, `strstart, `matchLength
      ensures strstart == old(strstart + matchLength) && matchLength == 0 && ChainOk(strstart)
      ensures strstart + 1 < window.Length && Primed(hp, insH, window[strstart], window[strstart + 1])
    {
      hide Chain, Primed, LzWindow.Holds, Pow2, UpdateHash, Leads, Hash;
      ghost var stop := strstart + matchLength;
      matchLength := matchLength - 1;       // the string at strstart is in the table
      while true
        invariant 1 <= matchLength && strstart + matchLength + 1 == stop && ChainOk(strstart + 1)
        invariant stop + MIN_MATCH <= end
        invariant strstart + 2 < window.Length && Primed(hp, insH, window[strstart + 1], window[strstart + 2])
        decreases matchLength
      {
        strstart := strstart + 1;
        var hashHead := InsertString(strstart, end);
        matchLength := matchLength - 1;
        if matchLength == 0 {
          break;
        }
      }
      strstart := strstart + 1;
    }

    /** hash_head is another string within reach; the subtraction is unsigned. */
    predicate Near(hashHead: nat)
      requires wSize >= 512
      reads `strstart
    {
      hashHead != 0 && hashHead <= strstart && strstart - hashHead <= MaxDist()
    }

    lemma HeadOnChain(hashHead: nat)
      requires Shape() && ChainOk(strstart + 1) && Near(hashHead) && base + strstart + 2 < |input|
      requires Leads(hp, input, base, ins, hashHead, base + strstart, HashAt(hp, input, base + strstart))
      ensures OnChain(hashHead)
    {
      hide Hash;
    }

    /** Looks for a match as the strategy says. */
    method FindMatch(hashHead: nat)
      requires Shape() && DataOk() && ChainOk(strstart + 1) && strstart <= 2 * wSize - MIN_LOOKAHEAD && Near(hashHead)
      requires bs.level > 0 && 1 <= prevLength <= MAX_MATCH && (lookahead >= MIN_MATCH ==> OnChain(hashHead))
      modifies `matchStart, `matchLength
      ensures matchLength == old(matchLength) || matchLength < MIN_MATCH
               || (matchLength <= lookahead && matchLength <= MAX_MATCH)
      ensures matchLength != old(matchLength) && matchLength >= MIN_MATCH && matchLength > prevLength ==>
               GoodMatch(matchStart, matchLength)
      ensures lookahead == 0 || matchLength >= 1 || matchLength == old(matchLength)
    {
      hide OnChain, GoodMatch, Chain;
      if !strategy.HuffmanOnly? && !strategy.Rle? {
        ghost var visited;
        matchLength, visited := LongestMatch(hashHead);
      } else if strategy.Rle? && strstart - hashHead == 1 {
        matchLength := LongestMatchFast(hashHead);
      }
    }

    lemma GoodMatchIs(len: nat)
      requires GoodMatch(matchStart, len) && len <= lookahead
      ensures 0 <= base + matchStart && 1 <= strstart - matchStart <= wSize - MIN_LOOKAHEAD
      ensures Matching(input, base + matchStart, base + strstart, len)
    {
    }

    /**
     Enters the string at strstart, if there are three bytes, and gives the head of its chain; otherwise the old head
     stays.
     */
    method EnterString(hashHead0: nat) returns (hashHead: nat)
      requires Shape() && DataOk() && ChainOk(strstart) && HashOk()
      modifies `insH, head, prev, `ins, `top
      ensures ChainOk(strstart + 1) && (lookahead < MIN_MATCH ==> ChainOk(strstart))
      ensures lookahead >= MIN_MATCH ==>
                strstart + 2 < window.Length && Primed(hp, insH, window[strstart + 1], window[strstart + 2])
      ensures lookahead >= MIN_MATCH && Near(hashHead) ==> OnChain(hashHead)
    {
      hide Chain, Primed, LzWindow.Holds, Pow2, UpdateHash, Leads, Hash, OnChain;
      hashHead := hashHead0;
      if lookahead >= MIN_MATCH {
        hashHead := InsertString(strstart, strstart + lookahead);
        if Near(hashHead) {
          HeadOnChain(hashHead);
        }
      } else {
        TopRises(hp, wSize, head[..], prev[..], input, base, ins, top, top);
      }
    }

    /** A match is emitted, and its strings are entered unless it is too long. */
    method TakeMatch() returns (bflush: bool)
      requires Shape() && DataOk() && ChainOk(strstart + 1) && Emitted(base + strstart)
      requires bs.lastLit + 1 < bs.litBufsize
      requires strstart <= 2 * wSize - MIN_LOOKAHEAD && MIN_MATCH <= matchLength <= MAX_MATCH
      requires matchLength <= lookahead
      requires Primed(hp, insH, window[strstart + 1], window[strstart + 2]) && GoodMatch(matchStart, matchLength)
      modifies `insH, head, prev, `ins, `top, `strstart, `lookahead, `matchLength, bs.Repr()
      ensures DataOk() && ChainOk(strstart) && HashOk() && Emitted(base + strstart)
      ensures matchLength < MIN_MATCH && (bflush <==> bs.lastLit == bs.litBufsize - 1) && bs.lastLit < bs.litBufsize
      ensures strstart + lookahead == old(strstart + lookahead) && strstart > old(strstart) && strstart <= 2 * wSize - 4
      ensures bs.reader == old(bs.reader) && bs.w.Sent() == old(bs.w.Sent()) && bs.w.output == old(bs.w.output)
    {
      hide Chain, Primed, LzWindow.Holds, Pow2, UpdateHash, Expand, GoodTokens, Matching, BlockState.Valid, Leads, Hash,
           InReach;
      hide GoodMatch, HashOk, DataOk, ChainOk, DataTo, Emitted;
      DataBounds();
      GoodMatchIs(matchLength);
      ghost var end := strstart + lookahead;
      DataIs(end);
      bflush := TallyDist(strstart, matchStart, matchLength);
      lookahead := lookahead - matchLength;
      if matchLength <= config.maxLazy && lookahead >= MIN_MATCH {
        EnterMatch(end);
      } else {
        SkipMatch(end);
      }
    }

    /** No more strings of the match are entered; the hash starts again behind it. */
    method SkipMatch(ghost end: nat)
      requires Shape() && DataTo(end) && ChainOk(strstart + 1) && matchLength >= 1
      requires strstart + matchLength + lookahead == end && strstart + matchLength + 1 < 2 * wSize
      modifies `insH, `strstart, `matchLength
      ensures strstart == old(strstart + matchLength) && matchLength == 0 && DataOk() && ChainOk(strstart) && HashOk()
    {
      hide Chain, Primed, LzWindow.Holds, Pow2, DataTo, ChainOk, DataOk, HashOk;
      if matchLength > 1 {
        TopStays(strstart + matchLength);
      }
      strstart := strstart + matchLength;
      matchLength := 0;
      StartHash();
      DataIs(end);
    }

    /** The strings of the match, and then everything is as between two turns. */
    method EnterMatch(ghost end: nat)
      requires Shape() && DataTo(end) && ChainOk(strstart + 1) && matchLength >= MIN_MATCH
      requires strstart + 1 < window.Length && strstart + 2 < window.Length
      requires Primed(hp, insH, window[strstart + 1], window[strstart + 2])
      requires strstart + matchLength + lookahead == end && lookahead >= MIN_MATCH
      modifies `insH, head, prev, `ins, `top, `strstart, `matchLength
      ensures strstart == old(strstart + matchLength) && matchLength == 0 && DataOk() && ChainOk(strstart) && HashOk()
    {
      hide Chain, Primed, LzWindow.Holds, Pow2, DataTo, ChainOk, DataOk, HashOk;
      InsertMatch(end);
      DataIs(end);
      HashIs();
    }

    lemma DataIs(end: nat)
      requires end == strstart + lookahead
      ensures DataOk() <==> DataTo(end)
    {
    }

    lemma HashIs()
      requires lookahead >= MIN_MATCH && strstart + 1 < window.Length ==>
               Primed(hp, insH, window[strstart], window[strstart + 1])
      ensures HashOk()
    {
    }

    lemma TopStays(str: nat)
      requires ChainOk(strstart + 1) && strstart < str
      ensures ChainOk(str)
    {
      hide Chain;
    }

    /** One turn of deflate_fast: a match or a literal. */
    method FastStep(hashHead0: nat) returns (hashHead: nat, bflush: bool)
      requires FastOk() && lookahead > 0 && strstart <= 2 * wSize - MIN_LOOKAHEAD
      modifies `insH, head, prev, `ins, `top, `strstart, `lookahead, `matchStart, `matchLength, bs.Repr()
      ensures Shape() && DataOk() && ChainOk(strstart) && HashOk() && Emitted(base + strstart)
      ensures matchLength < MIN_MATCH && (bflush <==> bs.lastLit == bs.litBufsize - 1) && bs.lastLit < bs.litBufsize
      ensures strstart + lookahead == old(strstart + lookahead) && strstart > old(strstart) && strstart <= 2 * wSize - 4
      ensures bs.reader == old(bs.reader) && bs.w.Sent() == old(bs.w.Sent()) && bs.w.output == old(bs.w.output)
    {
      hide Chain, Primed, LzWindow.Holds, Pow2, UpdateHash, Expand, GoodTokens, Matching, BlockState.Valid, Leads, Hash,
           InReach;
      hide GoodMatch, OnChain, Emitted, ChainOk;
      hashHead := EnterString(hashHead0);
      if Near(hashHead) {
        FindMatch(hashHead);
      }
      if matchLength >= MIN_MATCH {
        bflush := TakeMatch();
      } else {
        bflush := TakeLiteral();
      }
    }

    /** A literal is emitted. */
    method TakeLiteral() returns (bflush: bool)
      requires Shape() && DataOk() && ChainOk(strstart + 1) && Emitted(base + strstart)
      requires bs.lastLit + 1 < bs.litBufsize
      requires strstart <= 2 * wSize - MIN_LOOKAHEAD && lookahead > 0
      requires lookahead >= MIN_MATCH ==> Primed(hp, insH, window[strstart + 1], window[strstart + 2])
      modifies `strstart, `lookahead, bs.Repr()
      ensures DataOk() && ChainOk(strstart) && HashOk() && Emitted(base + strstart)
      ensures (bflush <==> bs.lastLit == bs.litBufsize - 1) && bs.lastLit < bs.litBufsize
      ensures strstart == old(strstart) + 1 && lookahead == old(lookahead) - 1
      ensures bs.reader == old(bs.reader) && bs.w.Sent() == old(bs.w.Sent()) && bs.w.output == old(bs.w.output)
    {
      hide Chain, Primed, LzWindow.Holds, Pow2, Expand, GoodTokens, BlockState.Valid, Emitted, InReach;
      bflush := TallyLit(strstart, strstart + lookahead);
      lookahead := lookahead - 1;
      strstart := strstart + 1;
    }

    // ---------- the block functions ----------

    /** The stream is finished: all of it decodes to the whole input. */
    ghost predicate Finished()
      reads this, window, bs, bs.Repr()
    {
      && bs.Valid() && bs.reader.mode.Done? && bs.w.biValid == 0 && bs.reader.out == input && Shape() && DataOk()
          && lookahead == 0
      && InReach(bs.reader.toks, MaxDist())
    }

    /** fill_window while the first n bytes are emitted. */
    method Fill(ghost n: nat)
      requires Shape() && DataOk() && ChainOk(strstart) && HashOk() && lookahead < MIN_LOOKAHEAD && Emitted(n)
      requires n <= base + strstart
      modifies window, head, prev, `insH, `strstart, `lookahead, `matchStart, `blockStart, `nextIn, `input, `base
      ensures DataOk() && ChainOk(strstart) && HashOk() && strstart <= 2 * wSize - MIN_LOOKAHEAD && Emitted(n)
      ensures lookahead < MIN_LOOKAHEAD ==> nextIn == []
      ensures lookahead >= old(lookahead) && base + strstart == old(base + strstart)
      ensures base + matchStart == old(base + matchStart)
      ensures input + nextIn == old(input + nextIn) && old(input) <= input
      ensures strstart == if old(strstart) >= wSize + MaxDist() then old(strstart) - wSize else old(strstart)
    {
      hide Chain, Primed, LzWindow.Holds, Pow2, Expand, GoodTokens, BlockState.Valid, HashOk, ChainOk;
      DataBounds();
      FillWindow();
      assert input[..n] == old(input)[..n];
    }

    lemma DataBounds()
      requires DataOk()
      ensures base + strstart + lookahead == |input| && strstart + lookahead <= 2 * wSize
    {
    }

    method FastFill()
      requires FastOk() && lookahead < MIN_LOOKAHEAD
      modifies window, head, prev, `insH, `strstart, `lookahead, `matchStart, `blockStart, `nextIn, `input, `base
      ensures FastOk() && strstart <= 2 * wSize - MIN_LOOKAHEAD
      ensures lookahead < MIN_LOOKAHEAD ==> nextIn == []
      ensures lookahead >= old(lookahead) && base + strstart == old(base + strstart)
      ensures input + nextIn == old(input + nextIn) && old(input) <= input
    {
      hide Emitted, ChainOk, DataOk, HashOk;
      Fill(base + strstart);
    }

    /** A turn of deflate_fast, and the block if it is full. leave: there is no more room for output. */
    method FastRound(hashHead0: nat) returns (hashHead: nat, leave: bool)
      requires FastOk() && lookahead > 0 && strstart <= 2 * wSize - MIN_LOOKAHEAD
      modifies this, head, prev, bs.Repr()
      ensures FastOk() && (leave ==> availOut == 0)
      ensures input == old(input) && nextIn == old(nextIn) && base == old(base) && strstart > old(strstart)
      ensures old(bs.w.output) <= bs.w.output && |bs.w.output| + availOut == old(|bs.w.output| + availOut)
    {
      hide Chain, Primed, LzWindow.Holds, Pow2, UpdateHash, Expand, GoodTokens, Matching, BlockState.Valid, Leads, Hash,
           InReach;
      hide DataOk, Emitted, ChainOk, HashOk;
      var bflush;
      hashHead, bflush := FastStep(hashHead0);
      leave := false;
      if bflush {
        FlushBlockOnly(false);
        leave := availOut == 0;
      }
    }

    /** deflate_fast: takes the first match found. */
    method DeflateFast(flush: Flush) returns (res: Result)
      requires FastOk()
      modifies this, window, head, prev, bs.Repr()
      ensures input + nextIn == old(input + nextIn) && old(input) <= input && old(bs.w.output) <= bs.w.output
      ensures |bs.w.output| + availOut == old(|bs.w.output| + availOut)
      ensures if res.FinishStarted? || res.FinishDone? then Finished() && flush.Finish? && nextIn == [] else FastOk()
      ensures res.BlockDone? || res.FinishDone? ==> availOut > 0 && bs.w.pending == []
      ensures (res.BlockDone? ==> !flush.NoFlush? && !flush.Finish?) && (res.FinishStarted? ==> availOut == 0)
      ensures res.BlockDone? ==> lookahead == 0 && nextIn == [] && bs.lastLit == 0 && bs.reader.out == input
      ensures res.NeedMore? ==> availOut == 0 || (nextIn == [] && flush.NoFlush? && lookahead < MIN_LOOKAHEAD)
      ensures Place() >= old(Place()) && (res.NeedMore? && flush.Finish? ==> Place() > old(Place()))
    {
      hide Chain, Primed, LzWindow.Holds, Pow2, UpdateHash, Expand, GoodTokens, Matching, BlockState.Valid, Leads, Hash,
           InReach;
      hide GoodMatch, OnChain, Emitted, ChainOk, HashOk, DataOk;
      var hashHead, leave := 0, false;
      while true
        invariant FastOk() && input + nextIn == old(input + nextIn) && old(input) <= input
        invariant Place() >= old(Place())
        invariant old(bs.w.output) <= bs.w.output
        invariant |bs.w.output| + availOut == old(|bs.w.output| + availOut)
        decreases |input + nextIn| - (base + strstart)
      {
        DataBounds();
        if lookahead < MIN_LOOKAHEAD {
          FastFill();
          DataBounds();
          if lookahead < MIN_LOOKAHEAD && flush.NoFlush? {
            return NeedMore;
          }
          if lookahead == 0 {
            break;
          }
        }
        hashHead, leave := FastRound(hashHead);
        DataBounds();
        if leave {
          return NeedMore;
        }
      }
      res := FastEnd(flush);
    }

    /** The last block. */
    method FastEnd(flush: Flush) returns (res: Result)
      requires FastOk() && lookahead == 0 && nextIn == [] && strstart <= 2 * wSize - MIN_LOOKAHEAD && !flush.NoFlush?
      modifies this, bs.Repr()
      ensures input == old(input) && nextIn == [] && old(bs.w.output) <= bs.w.output && Place() == old(Place())
      ensures |bs.w.output| + availOut == old(|bs.w.output| + availOut)
      ensures if res.FinishStarted? || res.FinishDone? then Finished() && flush.Finish? else FastOk()
      ensures res.BlockDone? || res.FinishDone? ==> availOut > 0 && bs.w.pending == []
      ensures (res.BlockDone? ==> !flush.NoFlush? && !flush.Finish?) && (res.FinishStarted? ==> availOut == 0)
      ensures res.BlockDone? ==> lookahead == 0 && bs.lastLit == 0 && bs.reader.out == input
      ensures res.NeedMore? ==> availOut == 0 && !flush.Finish?
    {
      hide Chain, Primed, LzWindow.Holds, Pow2, Expand, GoodTokens, BlockState.Valid, InReach;
      hide Emitted, ChainOk, HashOk, DataOk;
      FlushBlockOnly(flush.Finish?);
      AllFlushed();
      if availOut == 0 {
        return if flush.Finish? then FinishStarted else NeedMore;
      }
      res := if flush.Finish? then FinishDone else BlockDone;
    }

    lemma AllFlushed()
      requires DataOk() && lookahead == 0
      ensures |input| == base + strstart && input[..base + strstart] == input
    {
    }

    // ---------- deflate_slow ----------

    /** A match of the string just before strstart. */
    ghost predicate GoodPrevious(start: int, len: nat)
      reads `input, `base, `strstart
    {
      && 0 <= base + start && 1 <= strstart - 1 - start <= wSize - MIN_LOOKAHEAD
      && Matching(input, base + start, base + strstart - 1, len)
    }

    /** The byte before strstart that no token stands for yet. */
    function Pending(): nat
      reads `matchAvailable
    {
      if matchAvailable then 1 else 0
    }

    /** Between two turns of deflate_slow: a match found there still waits for a better one. */
    ghost predicate SlowOk()
      reads this, window, head, prev, bs, bs.Repr()
    {
      && Shape() && DataOk() && ChainOk(strstart) && HashOk() && Pending() <= strstart
          && Emitted(base + strstart - Pending())
      && 1 <= matchLength <= MAX_MATCH && bs.level > 0 && bs.lastLit + 1 < bs.litBufsize
      && (matchLength >= MIN_MATCH ==> matchAvailable && GoodPrevious(matchStart, matchLength))
    }

    /** Looks for a match that is better than the previous one. */
    method LazySearch(hashHead: nat)
      requires Shape() && DataOk() && ChainOk(strstart + 1) && strstart <= 2 * wSize - MIN_LOOKAHEAD && lookahead > 0
      requires bs.level > 0 && 1 <= matchLength <= MAX_MATCH
      requires lookahead >= MIN_MATCH && Near(hashHead) ==> OnChain(hashHead)
      modifies `matchStart, `matchLength, `prevLength, `prevMatch
      ensures prevLength == old(matchLength) && prevMatch == old(matchStart) && 1 <= matchLength <= MAX_MATCH
      ensures matchLength >= MIN_MATCH && (prevLength < MIN_MATCH || matchLength > prevLength) ==>
                matchLength <= lookahead && GoodMatch(matchStart, matchLength)
    {
      hide GoodMatch, OnChain, ChainOk, DataOk;
      prevLength := matchLength;
      prevMatch := matchStart;
      matchLength := MIN_MATCH - 1;
      if hashHead != 0 && prevLength < config.maxLazy && Near(hashHead) {
        FindMatch(hashHead);
        if matchLength <= 5 && (strategy.Filtered? || (matchLength == MIN_MATCH && Far(strstart - matchStart))) {
          // a match that short and that far is not worth its distance
          matchLength := MIN_MATCH - 1;
        }
      }
    }

    /** Greater than TOO_FAR as an unsigned number. */
    predicate Far(d: int)
    {
      d < 0 || d > TOO_FAR
    }

    /** Enters the strings up to the end of a match, as long as there are three bytes. */
    method InsertRest(maxInsert: int, ghost end: nat)
      requires Shape() && DataTo(end) && ChainOk(strstart + 1) && prevLength >= 1 && maxInsert == end - MIN_MATCH
      requires strstart + prevLength + 1 <= end
      requires strstart + 1 <= maxInsert ==>
               strstart + 2 < window.Length && Primed(hp, insH, window[strstart + 1], window[strstart + 2])
      modifies `insH, head, prev, `ins, `top, `strstart, `prevLength
      ensures strstart == old(strstart + prevLength) + 1 && prevLength == 0 && ChainOk(strstart)
      ensures strstart <= maxInsert ==>
               strstart + 1 < window.Length && Primed(hp, insH, window[strstart], window[strstart + 1])
    {
      hide Chain, Primed, LzWindow.Holds, Pow2, UpdateHash, Leads, Hash;
      ghost var stop := strstart + prevLength;
      while true
        invariant 1 <= prevLength && strstart + prevLength == stop && ChainOk(strstart + 1) && stop + 1 <= end
        invariant strstart + 1 <= maxInsert ==>
                 strstart + 2 < window.Length && Primed(hp, insH, window[strstart + 1], window[strstart + 2])
        decreases prevLength
      {
        strstart := strstart + 1;
        if strstart <= maxInsert {
          var hashHead := InsertString(strstart, end);
        }
        prevLength := prevLength - 1;
        if prevLength == 0 {
          break;
        }
      }
      strstart := strstart + 1;
    }

    /** The previous match is emitted, and its strings are entered. */
    method TakePrevious() returns (bflush: bool)
      requires Shape() && DataOk() && ChainOk(strstart + 1) && strstart >= 1 && Emitted(base + strstart - 1)
      requires bs.lastLit + 1 < bs.litBufsize
      requires strstart <= 2 * wSize - MIN_LOOKAHEAD && MIN_MATCH <= prevLength <= MAX_MATCH
      requires GoodPrevious(prevMatch, prevLength)
      requires lookahead >= MIN_MATCH ==> Primed(hp, insH, window[strstart + 1], window[strstart + 2])
      modifies `insH, head, prev, `ins, `top, `strstart, `lookahead, `matchLength, `prevLength, `matchAvailable,
          bs.Repr()
      ensures DataOk() && ChainOk(strstart) && HashOk() && Emitted(base + strstart)
      ensures matchLength == MIN_MATCH - 1 && !matchAvailable && (bflush <==> bs.lastLit == bs.litBufsize - 1)
      ensures bs.lastLit < bs.litBufsize
      ensures strstart + lookahead == old(strstart + lookahead) && strstart > old(strstart) && strstart <= 2 * wSize - 4
      ensures bs.reader == old(bs.reader) && bs.w.Sent() == old(bs.w.Sent()) && bs.w.output == old(bs.w.output)
    {
      hide Chain, Primed, LzWindow.Holds, Pow2, UpdateHash, Expand, GoodTokens, Matching, BlockState.Valid, Leads, Hash,
           InReach;
      hide BitWriter.Sent, GoodPrevious, HashOk, DataOk, ChainOk, DataTo, Emitted;
      DataBounds();
      PreviousFits(prevMatch, prevLength);
      ghost var end := strstart + lookahead;
      DataIs(end);
      var maxInsert := strstart + lookahead - MIN_MATCH;
      bflush := TallyDist(strstart - 1, prevMatch, prevLength);
      lookahead := lookahead - (prevLength - 1);
      prevLength := prevLength - 2;
      EnterRest(maxInsert, end);
      matchAvailable := false;
      matchLength := MIN_MATCH - 1;
    }

    /** The strings of the match, and then everything is as between two turns. */
    method EnterRest(maxInsert: int, ghost end: nat)
      requires Shape() && DataTo(end) && ChainOk(strstart + 1) && prevLength >= 1 && maxInsert == end - MIN_MATCH
      requires strstart + prevLength + 1 + lookahead == end
      requires strstart + 1 <= maxInsert ==>
               strstart + 2 < window.Length && Primed(hp, insH, window[strstart + 1], window[strstart + 2])
      modifies `insH, head, prev, `ins, `top, `strstart, `prevLength
      ensures strstart == old(strstart + prevLength) + 1 && prevLength == 0 && DataOk() && ChainOk(strstart) && HashOk()
    {
      hide Chain, Primed, LzWindow.Holds, Pow2, DataTo, ChainOk, DataOk, HashOk;
      InsertRest(maxInsert, end);
      DataIs(end);
      HashIs();
    }

    lemma PreviousFits(start: int, len: nat)
      requires GoodPrevious(start, len)
      ensures 0 <= base + start && 1 <= strstart - 1 - start <= wSize - MIN_LOOKAHEAD
      ensures base + strstart - 1 + len <= |input|
      ensures Matching(input, base + start, base + strstart - 1, len)
    {
    }

    /** One byte on; the match found at the old place is now the previous one. */
    method StepOn()
      requires lookahead > 0 && Shape() && DataOk() && ChainOk(strstart + 1) && 1 <= matchLength <= MAX_MATCH
      requires lookahead >= MIN_MATCH ==>
               strstart + 2 < window.Length && Primed(hp, insH, window[strstart + 1], window[strstart + 2])
      requires matchLength >= MIN_MATCH ==> matchLength <= lookahead && GoodMatch(matchStart, matchLength)
      modifies `strstart, `lookahead
      ensures DataOk() && ChainOk(strstart) && HashOk() && strstart == old(strstart) + 1
      ensures lookahead == old(lookahead) - 1
      ensures matchLength >= MIN_MATCH ==> GoodPrevious(matchStart, matchLength)
    {
      hide Chain, Primed, LzWindow.Holds, Matching, Pow2;
      strstart := strstart + 1;
      lookahead := lookahead - 1;
    }

    /** One turn of deflate_slow after the search. leave: there is no more room for output. */
    method SlowTake() returns (leave: bool)
      requires Shape() && DataOk() && ChainOk(strstart + 1) && lookahead > 0 && strstart <= 2 * wSize - MIN_LOOKAHEAD
      requires Pending() <= strstart && Emitted(base + strstart - Pending()) && bs.lastLit + 1 < bs.litBufsize
      requires lookahead >= MIN_MATCH ==>
               strstart + 2 < window.Length && Primed(hp, insH, window[strstart + 1], window[strstart + 2])
      requires prevLength >= MIN_MATCH ==>
               matchAvailable && prevLength <= MAX_MATCH && GoodPrevious(prevMatch, prevLength)
      requires bs.level > 0 && 1 <= matchLength <= MAX_MATCH
      requires matchLength >= MIN_MATCH && (prevLength < MIN_MATCH || matchLength > prevLength) ==>
                 matchLength <= lookahead && GoodMatch(matchStart, matchLength)
      modifies this, head, prev, bs.Repr()
      ensures SlowOk() && (leave ==> availOut == 0)
      ensures input == old(input) && nextIn == old(nextIn) && base == old(base) && strstart > old(strstart)
      ensures old(bs.w.output) <= bs.w.output && |bs.w.output| + availOut == old(|bs.w.output| + availOut)
    {
      hide Chain, Primed, LzWindow.Holds, Pow2, UpdateHash, Expand, GoodTokens, Matching, BlockState.Valid, Leads, Hash,
           InReach;
      hide GoodMatch, GoodPrevious, DataOk, Emitted, ChainOk, HashOk;
      leave := false;
      if prevLength >= MIN_MATCH && matchLength <= prevLength {
        leave := SlowMatch();
      } else if matchAvailable {
        PutPrevious();
        StepOn();
        leave := availOut == 0;
      } else {
        matchAvailable := true;
        StepOn();
      }
    }

    /** The previous match was better: it is emitted, and the block if it is full. */
    method SlowMatch() returns (leave: bool)
      requires Shape() && DataOk() && ChainOk(strstart + 1) && strstart >= 1 && Emitted(base + strstart - 1)
      requires bs.level > 0 && bs.lastLit + 1 < bs.litBufsize
      requires strstart <= 2 * wSize - MIN_LOOKAHEAD && MIN_MATCH <= prevLength <= MAX_MATCH
      requires GoodPrevious(prevMatch, prevLength)
      requires lookahead >= MIN_MATCH ==> Primed(hp, insH, window[strstart + 1], window[strstart + 2])
      modifies this, head, prev, bs.Repr()
      ensures SlowOk() && (leave ==> availOut == 0)
      ensures input == old(input) && nextIn == old(nextIn) && base == old(base) && strstart > old(strstart)
      ensures old(bs.w.output) <= bs.w.output && |bs.w.output| + availOut == old(|bs.w.output| + availOut)
    {
      hide Chain, Primed, LzWindow.Holds, Pow2, UpdateHash, Expand, GoodTokens, Matching, BlockState.Valid, Leads, Hash;
      hide GoodMatch, GoodPrevious, DataOk, Emitted, ChainOk, HashOk, InReach;
      var bflush := TakePrevious();
      leave := false;
      if bflush {
        FlushBlockOnly(false);
        leave := availOut == 0;
      }
    }

    /** The literal before strstart is emitted, and the block if it is full. */
    method PutPrevious()
      requires Shape() && DataOk() && 1 <= strstart <= 2 * wSize - MIN_LOOKAHEAD && Emitted(base + strstart - 1)
      requires bs.lastLit + 1 < bs.litBufsize
      modifies bs.Repr(), `blockStart, `availOut
      ensures Emitted(base + strstart) && bs.lastLit + 1 < bs.litBufsize
      ensures old(bs.w.output) <= bs.w.output && |bs.w.output| + availOut == old(|bs.w.output| + availOut)
    {
      hide LzWindow.Holds, Expand, GoodTokens, BlockState.Valid, DataOk, Emitted, InReach;
      LitBufIs();
      var bflush := TallyPrevious();
      if bflush {
        FlushBlockOnly(false);
      }
    }

    lemma LitBufIs()
      requires strstart >= 1 && Emitted(base + strstart - 1)
      ensures bs.litBufsize >= 2
    {
      LitBuf();
    }

    /** The literal before strstart. */
    method TallyPrevious() returns (bflush: bool)
      requires Shape() && DataOk() && strstart >= 1 && Emitted(base + strstart - 1) && bs.lastLit + 1 < bs.litBufsize
      modifies bs.Repr()
      ensures Emitted(base + strstart) && (bflush <==> bs.lastLit == bs.litBufsize - 1) && bs.lastLit < bs.litBufsize
      ensures bs.reader == old(bs.reader) && bs.w.Sent() == old(bs.w.Sent()) && bs.w.output == old(bs.w.output)
    {
      hide Emitted, LzWindow.Holds;
      bflush := TallyLit(strstart - 1, strstart + lookahead);
    }

    /** fill_window between two turns of deflate_slow. */
    method SlowFill()
      requires SlowOk() && lookahead < MIN_LOOKAHEAD
      modifies window, head, prev, `insH, `strstart, `lookahead, `matchStart, `blockStart, `nextIn, `input, `base
      ensures SlowOk() && strstart <= 2 * wSize - MIN_LOOKAHEAD
      ensures lookahead < MIN_LOOKAHEAD ==> nextIn == []
      ensures lookahead >= old(lookahead) && base + strstart == old(base + strstart)
      ensures input + nextIn == old(input + nextIn) && old(input) <= input
    {
      hide Chain, Primed, LzWindow.Holds, Pow2, UpdateHash, Expand, GoodTokens, Matching, BlockState.Valid, Leads, Hash;
      hide Emitted, ChainOk, DataOk, HashOk;
      ghost var input0 := input;
      Fill(base + strstart - Pending());
      ghost var more := input[|input0|..];
      assert input == input0 + more;
      if matchLength >= MIN_MATCH {
        MatchingMore(input0, more, base + matchStart, base + strstart - 1, matchLength);
      }
    }

    /** One turn of deflate_slow: the string is entered, a match is looked for, and what was pending is settled. */
    method SlowStep(hashHead0: nat) returns (hashHead: nat, leave: bool)
      requires SlowOk() && lookahead > 0 && strstart <= 2 * wSize - MIN_LOOKAHEAD
      modifies this, head, prev, bs.Repr()
      ensures SlowOk() && (leave ==> availOut == 0)
      ensures input == old(input) && nextIn == old(nextIn) && base == old(base) && strstart > old(strstart)
      ensures old(bs.w.output) <= bs.w.output && |bs.w.output| + availOut == old(|bs.w.output| + availOut)
    {
      hide Chain, Primed, LzWindow.Holds, Pow2, UpdateHash, Expand, GoodTokens, Matching, BlockState.Valid, Leads, Hash,
           InReach;
      hide GoodMatch, GoodPrevious, OnChain, DataOk, Emitted, ChainOk, HashOk;
      hashHead := EnterString(hashHead0);
      LazySearch(hashHead);
      leave := SlowTake();
    }

    /** deflate_slow: a match is taken only if there is no better one at the next place. */
    method DeflateSlow(flush: Flush) returns (res: Result)
      requires SlowOk()
      modifies this, window, head, prev, bs.Repr()
      ensures input + nextIn == old(input + nextIn) && old(input) <= input && old(bs.w.output) <= bs.w.output
      ensures |bs.w.output| + availOut == old(|bs.w.output| + availOut)
      ensures if res.FinishStarted? || res.FinishDone? then Finished() && flush.Finish? && nextIn == [] else SlowOk()
      ensures res.BlockDone? || res.FinishDone? ==> availOut > 0 && bs.w.pending == []
      ensures (res.BlockDone? ==> !flush.NoFlush? && !flush.Finish?) && (res.FinishStarted? ==> availOut == 0)
      ensures res.BlockDone? ==>
               lookahead == 0 && nextIn == [] && bs.lastLit == 0 && bs.reader.out == input && !matchAvailable
      ensures res.NeedMore? ==> availOut == 0 || (nextIn == [] && flush.NoFlush? && lookahead < MIN_LOOKAHEAD)
      ensures Place() >= old(Place()) && (res.NeedMore? && flush.Finish? ==> Place() > old(Place()))
    {
      hide Chain, Primed, LzWindow.Holds, Pow2, UpdateHash, Expand, GoodTokens, Matching, BlockState.Valid, Leads, Hash,
           InReach;
      hide GoodMatch, GoodPrevious, OnChain, Emitted, ChainOk, HashOk, DataOk;
      var hashHead, leave := 0, false;
      while true
        invariant SlowOk() && input + nextIn == old(input + nextIn) && old(input) <= input
        invariant Place() >= old(Place())
        invariant old(bs.w.output) <= bs.w.output
        invariant |bs.w.output| + availOut == old(|bs.w.output| + availOut)
        decreases |input + nextIn| - (base + strstart)
      {
        DataBounds();
        if lookahead < MIN_LOOKAHEAD {
          SlowFill();
          DataBounds();
          if lookahead < MIN_LOOKAHEAD && flush.NoFlush? {
            return NeedMore;
          }
          if lookahead == 0 {
            break;
          }
        }
        hashHead, leave := SlowStep(hashHead);
        DataBounds();
        if leave {
          return NeedMore;
        }
      }
      res := SlowEnd(flush);
    }

    /** The pending literal and the last block. */
    method SlowEnd(flush: Flush) returns (res: Result)
      requires SlowOk() && lookahead == 0 && nextIn == [] && strstart <= 2 * wSize - MIN_LOOKAHEAD && !flush.NoFlush?
      modifies this, bs.Repr()
      ensures input == old(input) && nextIn == [] && old(bs.w.output) <= bs.w.output && Place() == old(Place())
      ensures |bs.w.output| + availOut == old(|bs.w.output| + availOut)
      ensures if res.FinishStarted? || res.FinishDone? then Finished() && flush.Finish? && nextIn == [] else SlowOk()
      ensures res.BlockDone? || res.FinishDone? ==> availOut > 0 && bs.w.pending == []
      ensures (res.BlockDone? ==> !flush.NoFlush? && !flush.Finish?) && (res.FinishStarted? ==> availOut == 0)
      ensures res.BlockDone? ==> lookahead == 0 && bs.lastLit == 0 && bs.reader.out == input && !matchAvailable
      ensures res.NeedMore? ==> availOut == 0 && !flush.Finish?
    {
      hide Chain, Primed, LzWindow.Holds, Pow2, UpdateHash, Expand, GoodTokens, Matching, BlockState.Valid, Leads, Hash,
           InReach;
      hide GoodMatch, GoodPrevious, OnChain, Emitted, ChainOk, HashOk, DataOk;
      DataBounds();
      ShortMatch();
      if matchAvailable {
        var bflush := TallyPrevious();
        matchAvailable := false;
      }
      FlushBlockOnly(flush.Finish?);
      AllFlushed();
      if availOut == 0 {
        return if flush.Finish? then FinishStarted else NeedMore;
      }
      res := if flush.Finish? then FinishDone else BlockDone;
    }

    /** At the end of the input no match is left over. */
    lemma ShortMatch()
      requires SlowOk() && lookahead == 0
      ensures matchLength < MIN_MATCH
    {
    }

    // ---------- deflate_stored ----------

    /** Stored blocks are limited by their 16-bit length and by the pending buffer. */
    function MaxBlockSize(): nat
    {
      var size := 4 * bs.litBufsize;
      if size <= 5 then 0 else if size - 5 < 0xffff then size - 5 else 0xffff
    }

    /** Between two turns of deflate_stored. */
    ghost predicate StoredOk()
      reads this, window, head, prev, bs, bs.Repr()
    {
      && Shape() && DataOk() && ChainOk(strstart) && bs.Valid() && bs.level == 0 && bs.lastLit == 0
      && bs.reader.mode.Type? && !bs.reader.last && 0 <= blockStart <= strstart && base + strstart <= |input|
      && bs.reader.out == input[..base + blockStart] && strstart - blockStart < MaxDist()
          && strstart - blockStart < MaxBlockSize()
      && InReach(bs.reader.toks, MaxDist())
    }

    /** FLUSH_BLOCK_ONLY for a stored block. */
    method FlushStored(eof: bool)
      requires Shape() && DataOk() && bs.Valid() && bs.level == 0 && bs.lastLit == 0 && bs.reader.mode.Type?
      requires !bs.reader.last
      requires 0 <= blockStart <= strstart && strstart - blockStart < 0x10000
      requires bs.reader.out == input[..base + blockStart]
      requires base + strstart <= |input| && InReach(bs.reader.toks, MaxDist())
      modifies bs.Repr(), `blockStart, `availOut
      ensures bs.Valid() && bs.lastLit == 0 && bs.reader.out == input[..base + strstart] && blockStart == strstart
      ensures bs.reader.last == eof && (if eof then bs.reader.mode.Done? && bs.w.biValid == 0 else bs.reader.mode.Type?)
      ensures InReach(bs.reader.toks, MaxDist())
      ensures |bs.w.output| + availOut == old(|bs.w.output| + availOut) && (availOut == 0 || bs.w.pending == [])
      ensures old(bs.w.output) <= bs.w.output
    {
      hide Chain, Primed, LzWindow.Holds, Pow2, UpdateHash, Expand, GoodTokens, Matching, BlockState.Valid, Leads, Hash,
           InReach;
      NoneFar(MaxDist());
      NoneTallied();
      BlockIs(blockStart);
      ghost var n0, n1 := base + blockStart, base + strstart;
      assert input[..n1] == input[..n0] + input[n0..n1];
      FlushData(Some(window[blockStart..strstart]), strstart - blockStart, eof, input[n0..n1]);
      blockStart := strstart;
    }

    /** fill_window between two turns of deflate_stored: the block start stays in the window. */
    method StoredFill()
      requires StoredOk() && lookahead <= 1
      modifies window, head, prev, `insH, `strstart, `lookahead, `matchStart, `blockStart, `nextIn, `input, `base
      ensures StoredOk() && strstart <= 2 * wSize - MIN_LOOKAHEAD
      ensures lookahead < MIN_LOOKAHEAD ==> nextIn == []
      ensures lookahead >= old(lookahead) && base + strstart == old(base + strstart)
      ensures input + nextIn == old(input + nextIn) && old(input) <= input
    {
      hide Chain, Primed, LzWindow.Holds, Pow2, BlockState.Valid, ChainOk;
      ghost var n, input0 := base + blockStart, input;
      DataBounds();
      FillWindow();
      DataBounds();
      assert input[..n] == input0[..n];
    }

    /**
     One turn of deflate_stored with input ahead: as much as fits goes into the block. leave: there is no more room for
     output.
     */
    method StoredStep() returns (leave: bool)
      requires StoredOk() && lookahead > 0
      modifies this, bs.Repr()
      ensures StoredOk() && input == old(input) && nextIn == old(nextIn) && base == old(base)
      ensures strstart > old(strstart)
      ensures old(bs.w.output) <= bs.w.output && |bs.w.output| + availOut == old(|bs.w.output| + availOut)
      ensures (leave ==> availOut == 0)
    {
      hide Chain, Primed, LzWindow.Holds, Pow2, BlockState.Valid, InReach;
      DataBounds();
      LitBuf();
      strstart := strstart + lookahead;
      lookahead := 0;
      var maxStart := blockStart + MaxBlockSize();
      if strstart == 0 || strstart >= maxStart {
        lookahead := strstart - maxStart;
        strstart := maxStart;
        FlushStored(false);
        if availOut == 0 {
          return true;
        }
      }
      if strstart - blockStart >= MaxDist() {
        FlushStored(false);
        if availOut == 0 {
          return true;
        }
      }
      leave := false;
    }

    lemma LitBuf()
      requires bs.Valid()
      ensures bs.litBufsize >= 2
    {
    }

    /** deflate_stored: copies the input in stored blocks. */
    method DeflateStored(flush: Flush) returns (res: Result)
      requires StoredOk()
      modifies this, window, head, prev, bs.Repr()
      ensures input + nextIn == old(input + nextIn) && old(input) <= input && old(bs.w.output) <= bs.w.output
      ensures |bs.w.output| + availOut == old(|bs.w.output| + availOut)
      ensures if res.FinishStarted? || res.FinishDone? then Finished() && flush.Finish? && nextIn == [] else StoredOk()
      ensures res.BlockDone? || res.FinishDone? ==> availOut > 0 && bs.w.pending == []
      ensures (res.BlockDone? ==> !flush.NoFlush? && !flush.Finish?) && (res.FinishStarted? ==> availOut == 0)
      ensures res.BlockDone? ==> lookahead == 0 && nextIn == [] && bs.lastLit == 0 && bs.reader.out == input
      ensures res.NeedMore? ==> availOut == 0 || (nextIn == [] && flush.NoFlush? && lookahead < MIN_LOOKAHEAD)
      ensures Place() >= old(Place()) && (res.NeedMore? && flush.Finish? ==> Place() > old(Place()))
    {
      hide Chain, Primed, LzWindow.Holds, Pow2, UpdateHash, Expand, GoodTokens, Matching, BlockState.Valid, Leads, Hash,
           InReach;
      hide DataOk, ChainOk;
      while true
        invariant StoredOk() && input + nextIn == old(input + nextIn) && old(input) <= input
        invariant Place() >= old(Place())
        invariant old(bs.w.output) <= bs.w.output
        invariant |bs.w.output| + availOut == old(|bs.w.output| + availOut)
        decreases |input + nextIn| - (base + strstart)
      {
        DataBounds();
        if lookahead <= 1 {
          StoredFill();
          DataBounds();
          if lookahead == 0 && flush.NoFlush? {
            return NeedMore;
          }
          if lookahead == 0 {
            break;
          }
        }
        var leave := StoredStep();
        DataBounds();
        if leave {
          return NeedMore;
        }
      }
      FlushStored(flush.Finish?);
      AllFlushed();
      if availOut == 0 {
        return if flush.Finish? then FinishStarted else NeedMore;
      }
      res := if flush.Finish? then FinishDone else BlockDone;
    }

    // ---------- flush markers ----------

    /** CLEAR_HASH: forgets all history. */
    method ClearHash()
      requires Shape() && ChainOk(strstart)
      modifies head
      ensures ChainOk(strstart)
    {
      hide Chain, Pow2;
      ghost var h := head[..];
      for i := 0 to head.Length
        invariant forall j :: 0 <= j < i ==> head[j] == 0
      {
        head[i] := 0;
      }
      ClearKeeps(hp, wSize, h, prev[..], input, base, ins, top, head[..]);
    }

    /** The empty block after a flush, whose bytes decode to nothing. */
    method Marker(flush: Flush)
      requires Shape() && ChainOk(strstart) && bs.Valid() && bs.reader.mode.Type? && !bs.reader.last
      modifies bs.w, bs`lastEobLen, bs`reader, head, `availOut
      ensures ChainOk(strstart) && bs.Valid() && bs.reader.mode.Type? && !bs.reader.last
      ensures bs.reader.out == old(bs.reader.out)
      ensures bs.lastLit == old(bs.lastLit) && bs.Toks() == old(bs.Toks()) && bs.reader.toks == old(bs.reader.toks)
      ensures |bs.w.output| + availOut == old(|bs.w.output| + availOut) && (availOut == 0 || bs.w.pending == [])
      ensures old(bs.w.output) <= bs.w.output && (!flush.PartialFlush? ==> bs.w.biValid == 0)
    {
      hide BlockState.Valid, ChainOk, StaticBits;
      if flush.PartialFlush? {
        bs.TrAlign();
      } else {
        bs.SyncBlock();
        if flush.FullFlush? {
          ClearHash();
        }
      }
      availOut := bs.FlushPending(availOut);
    }

    /** flush_pending on its own. */
    method Pump()
      requires Shape() && bs.Valid()
      modifies bs.w, `availOut
      ensures bs.Valid() && bs.Toks() == old(bs.Toks()) && bs.w.biValid == old(bs.w.biValid)
      ensures |bs.w.output| + availOut == old(|bs.w.output| + availOut) && (availOut == 0 || bs.w.pending == [])
      ensures bs.w.output + bs.w.pending == old(bs.w.output + bs.w.pending)
      ensures old(bs.w.output) <= bs.w.output
    {
      hide BlockState.Valid;
      availOut := bs.FlushPending(availOut);
    }
  }

  lemma NoneFar(n: nat)
    ensures InReach([], n)
  {
  }

  lemma ByteOfMatch(input: seq<byte>, start: nat, at: nat, len: nat, i: nat)
    requires Matching(input, start, at, len) && i < len
    ensures input[start + i] == input[at + i]
  {
    assert input[at + i - (at - start)] == input[at + i];
  }

  lemma MatchingFits(input: seq<byte>, start: nat, at: nat, len: nat)
    requires Matching(input, start, at, len)
    ensures start < at && at + len <= |input|
  {
  }

  lemma ExpandGrows(h: seq<byte>, toks: seq<Token>)
    requires GoodTokens(h, toks)
    ensures h <= Expand(h, toks)
  {
  }

  /** m >= wsize ? m - wsize : NIL for every entry, from the last to the first. */
  method SlideTable(t: array<nat>, wsize: nat)
    modifies t
    ensures t[..] == Slid(old(t[..]), wsize)
  {
    var n: nat := t.Length;
    while n != 0
      invariant n <= t.Length
      invariant forall i :: 0 <= i < n ==> t[i] == old(t[i])
      invariant forall i :: n <= i < t.Length ==> t[i] == if old(t[i]) >= wsize then old(t[i]) - wsize else 0
    {
      n := n - 1;
      var m := t[n];
      t[n] := if m >= wsize then m - wsize else 0;
    }
  }

  lemma SlidData(w0: seq<byte>, w1: seq<byte>, input: seq<byte>, base: nat, end: nat, wsize: nat)
    requires LzWindow.Holds(w0, input, base, end) && |w0| == |w1| == 2 * wsize && wsize <= end
    requires forall i :: 0 <= i < wsize ==> w1[i] == w0[i + wsize]
    ensures LzWindow.Holds(w1, input, base + wsize, end - wsize)
  {
    assert w1[..end - wsize] == w0[wsize..end] == w0[..end][wsize..];
    assert input[base..][wsize..] == input[base + wsize..];
  }

  lemma ReadData(w0: seq<byte>, w1: seq<byte>, input: seq<byte>, base: nat, end: nat, data: seq<byte>)
    requires LzWindow.Holds(w0, input, base, end) && |w0| == |w1| && end + |data| <= |w0|
    requires forall i :: 0 <= i < |w0| ==> w1[i] == if end <= i < end + |data| then data[i - end] else w0[i]
    ensures LzWindow.Holds(w1, input + data, base, end + |data|)
  {
    assert w1[..end + |data|] == w0[..end] + data;
    assert (input + data)[base..] == input[base..] + data;
  }

  method SetEntry(t: array<nat>, i: nat, v: nat)
    requires i < t.Length
    modifies t
    ensures t[..] == old(t[..])[i := v]
  {
    t[i] := v;
  }

  lemma MoreLeads(p: HashParams, input: seq<byte>, base: nat, ins: set<nat>, q: nat, v: nat, before: nat, h: nat)
    requires Leads(p, input, base, ins, v, before, h)
    ensures Leads(p, input, base, ins + {q}, v, before, h)
  {
  }
}
