/** compress_block (trees.c): the tokens of a block in the codes of its trees. */
module BlockWriting {
  import opened Shift
  import opened Bits
  import opened Canonical
  import opened InfTreesSpec
  import opened Format
  import opened FormatFacts
  import opened BlockCode
  import opened RunLength
  import opened BlockRoundTrip
  import opened BlockLength
  import opened Heap
  import opened HuffmanQueue
  import opened BitLengths
  import opened DynTree
  import opened StaticTables
  import opened BitWriting
  import opened TreeSending

  // ---------- the buffered tokens ----------

  /** The token in a pair of buffer entries: a distance, or 0; and a length less 3, or a literal. */
  function TokenAt(d: nat, l: byte): Token
  {
    if d == 0 then Literal(l) else Copy(l + 3, d)
  }

  function Buffered(dBuf: seq<nat>, lBuf: seq<byte>, n: nat): (toks: seq<Token>)
    requires n <= |dBuf| && n <= |lBuf|
    ensures |toks| == n
  {
    seq(n, i requires 0 <= i < n => TokenAt(dBuf[i], lBuf[i]))
  }

  /** A tree with the codes of the lengths lens for all of the first n symbols that have one. */
  ghost predicate Usable(tree: seq<CtData>, lens: seq<nat>, n: nat)
  {
    n <= |tree| && forall s: nat :: s < n && HasCode(lens, s) ==> CodeOf(tree[s], lens, s)
  }

  lemma StaticUsable(t: Tables)
    requires GoodTables(t)
    ensures Usable(t.ltree, FixedLens(), 286) && Usable(t.dtree, FixedDists(), 30)
  {
    hide Rev, Code, Reversed;
    forall s: nat | s < 286 && HasCode(FixedLens(), s)
      ensures CodeOf(t.ltree[s], FixedLens(), s)
    {
      CodedAt(t.ltree, FixedLens(), s);
    }
    forall s: nat | s < 30
      ensures CodeOf(t.dtree[s], FixedDists(), s)
    {
      FiveCode(s);
      FiveReversed(s);
    }
  }

  lemma FiveReversed(s: nat)
    requires s < 30 && Code(FixedDists(), s) == s
    ensures Reversed(FixedDists(), s) == Rev(s, 5)
  {
    hide Rev, Code;
  }

  lemma CodedUsable(tree: seq<CtData>, lens: seq<nat>, n: nat)
    requires Coded(tree, lens) && n <= |tree|
    ensures Usable(tree, lens, n)
  {
  }

  // ---------- sending tokens ----------

  lemma LengthEntry(t: Tables, lc: byte)
    requires GoodTables(t)
    ensures |t.lengthCode| == 256 && |t.baseLength| == 29
    ensures var c := LengthCode(lc);
            && t.lengthCode[lc] == c && |EXTRA_LBITS| == 29 && EXTRA_LBITS[c] == LengthExtra(c) <= 5
            && LBASE[c] <= lc + 3 < LBASE[c] + Pow2(LengthExtra(c))
            && (LengthExtra(c) > 0 ==> t.baseLength[c] <= lc && lc - t.baseLength[c] == lc + 3 - LBASE[c])
  {
    hide LengthCode, Pow2;
    ExtraBitsAgree();
    LengthCovers(lc);
    if LengthCode(lc) == 28 {
      assert LengthExtra(28) == 0;
    }
    SmallExtra(LengthCode(lc));
  }

  lemma SmallExtra(c: nat)
    requires c < 29
    ensures LengthExtra(c) <= 5
  {
  }

  lemma DistEntry(t: Tables, d: nat)
    requires GoodTables(t) && d < 32768
    ensures |t.distCode| == 512 && |t.baseDist| == 30
    ensures var c := DistCode(d);
            && DCode(t.distCode, d) == c && |EXTRA_DBITS| == 30 && EXTRA_DBITS[c] == DistExtra(c) <= 13
            && DBASE[c] <= d + 1 < DBASE[c] + Pow2(DistExtra(c))
            && t.baseDist[c] <= d && d - t.baseDist[c] == d + 1 - DBASE[c]
  {
    hide DistCode, Pow2;
    ExtraBitsAgree();
    DistCovers(d);
    SmallDistExtra(DistCode(d));
  }

  lemma SmallDistExtra(c: nat)
    requires c < 30
    ensures DistExtra(c) <= 13
  {
  }

  /** The length code of a match and its extra bits. */
  method SendLength(w: BitWriter, lc: byte, t: Tables, ltree: seq<CtData>, ghost c: Codes)
    requires w.Valid() && GoodTables(t) && ValidLens(c.ll) && Usable(ltree, c.ll, 286)
    requires HasCode(c.ll, 257 + LengthCode(lc))
    modifies w
    ensures w.Valid() && w.Sent() == old(w.Sent()) + LengthBits(c, lc + 3) && w.output == old(w.output)
  {
    hide GoodTables, LengthCode, SymBits, BitsOf, Pow2, ValidLens, CodeOf;
    LengthEntry(t, lc);
    var code := t.lengthCode[lc];
    SendCode(w, ltree[code + 257], c.ll, code + 257);
    var extra := EXTRA_LBITS[code];
    ghost var sent := w.Sent();
    NoValueBits(lc + 3 - LBASE[code]);
    if extra != 0 {
      w.SendBits(lc - t.baseLength[code], extra);
    } else {
      assert sent + [] == sent;
    }
    Assoc(old(w.Sent()), SymBits(c.ll, 257 + code), BitsOf(lc + 3 - LBASE[code], extra));
  }

  lemma NoValueBits(v: nat)
    ensures BitsOf(v, 0) == []
  {
  }

  /** The distance code of a match and its extra bits. */
  method SendDistance(w: BitWriter, dist: nat, t: Tables, dtree: seq<CtData>, ghost c: Codes)
    requires w.Valid() && GoodTables(t) && ValidLens(c.dl) && Usable(dtree, c.dl, 30)
    requires dist < 32768 && HasCode(c.dl, DistCode(dist))
    modifies w
    ensures w.Valid() && w.Sent() == old(w.Sent()) + DistanceBits(c, dist + 1) && w.output == old(w.output)
  {
    hide GoodTables, DistCode, SymBits, BitsOf, Pow2, ValidLens, CodeOf;
    DistEntry(t, dist);
    var code := DCode(t.distCode, dist);
    SendCode(w, dtree[code], c.dl, code);
    var extra := EXTRA_DBITS[code];
    ghost var sent := w.Sent();
    NoValueBits(dist + 1 - DBASE[code]);
    if extra != 0 {
      w.SendBits(dist - t.baseDist[code], extra);
    } else {
      assert sent + [] == sent;
    }
    Assoc(old(w.Sent()), SymBits(c.dl, code), BitsOf(dist + 1 - DBASE[code], extra));
  }

  lemma {:induction false} TokensBitsAppend(c: Codes, h: seq<byte>, a: seq<Token>, t: Token)
    requires GoodTokens(h, a) && AllCodes(c, a) && GoodToken(Expand(h, a), t) && HasCodes(c, t)
    ensures GoodTokens(h, a + [t]) && AllCodes(c, a + [t])
    ensures TokensBits(c, h, a + [t]) == TokensBits(c, h, a) + TokenBits(c, Expand(h, a), t)
    decreases |a|
  {
    hide TokenBits, GoodToken, HasCodes, ExpandOne;
    if a == [] {
      assert a + [t] == [t] && [t][1..] == [];
    } else {
      assert (a + [t])[1..] == a[1..] + [t];
      assert AllCodes(c, a[1..]) && HasCodes(c, a[0]);
      TokensBitsAppend(c, ExpandOne(h, a[0]), a[1..], t);
    }
  }

  lemma {:induction false} TokenOfPrefix(h: seq<byte>, toks: seq<Token>, k: nat)
    requires GoodTokens(h, toks) && k < |toks|
    ensures GoodTokens(h, toks[..k]) && GoodToken(Expand(h, toks[..k]), toks[k])
    decreases k
  {
    if k > 0 {
      TokenOfPrefix(ExpandOne(h, toks[0]), toks[1..], k - 1);
      assert toks[..k][1..] == toks[1..][..k - 1];
    }
  }

  /** What the loop of compress_block has sent after k tokens. */
  ghost predicate SentTokens(sent: Bits, sent0: Bits, c: Codes, h: seq<byte>, toks: seq<Token>, k: nat)
  {
    && k <= |toks| && GoodTokens(h, toks[..k]) && AllCodes(c, toks[..k])
    && sent == sent0 + TokensBits(c, h, toks[..k])
  }

  lemma SentOne(sent: Bits, sent0: Bits, c: Codes, h: seq<byte>, toks: seq<Token>, k: nat)
    requires SentTokens(sent, sent0, c, h, toks, k) && k < |toks| && GoodTokens(h, toks) && AllCodes(c, toks)
    ensures GoodTokens(h, toks[..k]) && GoodToken(Expand(h, toks[..k]), toks[k]) && HasCodes(c, toks[k])
    ensures SentTokens(sent + TokenBits(c, Expand(h, toks[..k]), toks[k]), sent0, c, h, toks, k + 1)
  {
    hide TokenBits, GoodTokens, Expand, HasCodes, TokensBits, GoodToken;
    TokenOfPrefix(h, toks, k);
    assert toks[k] in toks;
    assert toks[..k + 1] == toks[..k] + [toks[k]];
    TokensBitsAppend(c, h, toks[..k], toks[k]);
    Assoc(sent0, TokensBits(c, h, toks[..k]), TokenBits(c, Expand(h, toks[..k]), toks[k]));
  }

  lemma SentNone(sent: Bits, c: Codes, h: seq<byte>, toks: seq<Token>)
    ensures SentTokens(sent, sent, c, h, toks, 0)
  {
    assert sent + [] == sent;
    assert toks[..0] == [];
  }

  lemma SentAll(sent: Bits, sent0: Bits, c: Codes, h: seq<byte>, toks: seq<Token>)
    requires SentTokens(sent, sent0, c, h, toks, |toks|) && HasCode(c.ll, 256)
    ensures GoodTokens(h, toks) && AllCodes(c, toks)
    ensures sent + SymBits(c.ll, 256) == sent0 + BodyBits(c, h, toks)
  {
    assert toks[..|toks|] == toks;
    Assoc(sent0, TokensBits(c, h, toks), SymBits(c.ll, 256));
  }

  /** One token of compress_block. */
  method SendToken(w: BitWriter, d: nat, l: byte, t: Tables, ltree: seq<CtData>, dtree: seq<CtData>, ghost c: Codes,
                   ghost h: seq<byte>)
    requires w.Valid() && GoodTables(t) && ValidLens(c.ll) && ValidLens(c.dl)
    requires Usable(ltree, c.ll, 286) && Usable(dtree, c.dl, 30)
    requires GoodToken(h, TokenAt(d, l)) && HasCodes(c, TokenAt(d, l))
    modifies w
    ensures w.Valid() && w.Sent() == old(w.Sent()) + TokenBits(c, h, TokenAt(d, l)) && w.output == old(w.output)
  {
    hide GoodTables, LengthCode, DistCode, SymBits, ValidLens, LengthBits, DistanceBits, CodeOf;
    if d == 0 {
      SendCode(w, ltree[l], c.ll, l);          // a literal byte
    } else {
      SendLength(w, l, t, ltree, c);
      SendDistance(w, d - 1, t, dtree, c);
      Assoc(old(w.Sent()), LengthBits(c, l + 3), DistanceBits(c, d));
    }
  }

  /** compress_block: the tokens of the block, and the end-of-block code. */
  method CompressBlock(w: BitWriter, dBuf: array<nat>, lBuf: array<byte>, lastLit: nat, t: Tables, ltree: seq<CtData>,
                       dtree: seq<CtData>, ghost c: Codes, ghost h: seq<byte>, ghost toks: seq<Token>)
    returns (lastEobLen: nat)
    requires w.Valid() && GoodTables(t) && ValidLens(c.ll) && ValidLens(c.dl)
    requires Usable(ltree, c.ll, 286) && Usable(dtree, c.dl, 30)
    requires lastLit <= dBuf.Length && lastLit <= lBuf.Length && toks == Buffered(dBuf[..], lBuf[..], lastLit)
    requires GoodTokens(h, toks) && AllCodes(c, toks) && HasCode(c.ll, 256)
    modifies w
    ensures w.Valid() && w.Sent() == old(w.Sent()) + BodyBits(c, h, toks) && w.output == old(w.output)
    ensures lastEobLen == c.ll[256]
  {
    hide GoodTables, ValidLens, SentTokens, GoodTokens, AllCodes, TokenBits, BodyBits, HasCodes, GoodToken, SymBits,
         CodeOf, TokensBits, Expand, ExpandOne, Usable, BytesBits;
    SentNone(w.Sent(), c, h, toks);
    var lx := 0;
    if lastLit != 0 {
      while true
        invariant lx <= lastLit && (lx < lastLit || lx > 0)
        invariant lx < lastLit
        invariant w.Valid() && w.output == old(w.output) && SentTokens(w.Sent(), old(w.Sent()), c, h, toks, lx)
        decreases lastLit - lx
      {
        SentOne(w.Sent(), old(w.Sent()), c, h, toks, lx);
        SendToken(w, dBuf[lx], lBuf[lx], t, ltree, dtree, c, Expand(h, toks[..lx]));
        lx := lx + 1;
        if lx >= lastLit {
          break;
        }
      }
    }
    SentAll(w.Sent(), old(w.Sent()), c, h, toks);
    EntryAt(ltree, c.ll, 286, 256);
    SendCode(w, ltree[256], c.ll, 256);
    lastEobLen := ltree[256].dl;
  }

  lemma EntryAt(tree: seq<CtData>, lens: seq<nat>, n: nat, s: nat)
    requires Usable(tree, lens, n) && s < n && HasCode(lens, s)
    ensures s < |tree| && CodeOf(tree[s], lens, s) && tree[s].dl == lens[s]
  {
  }
}
