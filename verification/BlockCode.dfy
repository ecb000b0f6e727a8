/**
 What the encoder writes: the bits of a token, of a list of tokens, of the transmitted code lengths
 and of a whole block (sections 3.2.3 to 3.2.7 of RFC 1951), and that the machine of module Format
 reads each of them back.
 */
module BlockCode {
  import opened Shift
  import opened Bits
  import opened Canonical
  import opened InfTreesSpec
  import opened Format
  import opened FormatFacts

  // ---------- symbols of lengths and distances ----------

  /** The last entry up to c that does not exceed v. */
  function Find(base: seq<nat>, v: nat, c: nat): (r: nat)
    requires c < |base|
    ensures r <= c && (base[r] <= v || r == 0) && (r < c ==> v < base[r + 1])
  {
    if c == 0 || base[c] <= v then c else Find(base, v, c - 1)
  }

  /** The length code for lc = length - 3. Length 258 has a code of its own. */
  function LengthCode(lc: nat): (c: nat)
    ensures c < 29
  {
    if lc >= 255 then 28 else Find(LBASE, lc + 3, 27)
  }

  /** The distance code for d = distance - 1. */
  function DistCode(d: nat): (c: nat)
    ensures c < 30
  {
    Find(DBASE, d + 1, 29)
  }

  function LengthExtra(c: nat): nat
    requires c < 29
  {
    if LEXT[c] >= 16 then LEXT[c] - 16 else 0
  }

  function DistExtra(c: nat): nat
    requires c < 30
  {
    if DEXT[c] >= 16 then DEXT[c] - 16 else 0
  }

  lemma LengthCovers(lc: nat)
    requires lc <= 255
    ensures var c := LengthCode(lc);
             LBASE[c] <= lc + 3 < LBASE[c] + Pow2(LengthExtra(c)) && LEXT[c] == 16 + LengthExtra(c)
  {
    hide Find;
    Powers();
    assert Pow2(0) == 1;
    assert LBASE[0] == 3;
    var c := LengthCode(lc);
    if lc == 255 {
      assert LBASE[28] == 258;
    } else {
      LengthStep(c);
    }
  }

  lemma LengthStep(c: nat)
    requires c <= 27
    ensures LEXT[c] >= 16 && LBASE[c] + Pow2(LEXT[c] - 16) == if c == 27 then 259 else LBASE[c + 1]
  {
    Powers();
    assert Pow2(0) == 1;
  }

  lemma DistCovers(d: nat)
    requires d < 32768
    ensures var c := DistCode(d); DBASE[c] <= d + 1 < DBASE[c] + Pow2(DistExtra(c)) && DEXT[c] == 16 + DistExtra(c)
  {
    hide Find;
    assert DBASE[0] == 1;
    DistSymbolStep(DistCode(d));
  }

  lemma DistSymbolStep(c: nat)
    requires c <= 29
    ensures DEXT[c] >= 16 && DBASE[c] + Pow2(DEXT[c] - 16) == if c == 29 then 32769 else DBASE[c + 1]
  {
    Powers();
    assert Pow2(0) == 1 && Pow2(6) == 64 && Pow2(9) == 512 && Pow2(10) == 1024;
    assert Pow2(11) == 2048 && Pow2(12) == 4096 && Pow2(13) == 8192;
  }

  // ---------- tokens ----------

  /** One byte, or a copy of earlier bytes, added to the bytes h. */
  function CopyBytes(h: seq<byte>, length: nat, distance: nat): (r: seq<byte>)
    requires 1 <= distance <= |h|
    ensures |r| == |h| + length && h <= r
    decreases length
  {
    if length == 0 then h
    else CopyBytes(h + [h[|h| - distance]], length - 1, distance)
  }

  /** One more byte at the end of a copy. */
  lemma {:induction false} CopySnoc(h: seq<byte>, n: nat, d: nat)
    requires 1 <= d <= |h|
    ensures CopyBytes(h, n + 1, d) == CopyBytes(h, n, d) + [CopyBytes(h, n, d)[|h| + n - d]]
    decreases n
  {
    var h1 := h + [h[|h| - d]];
    if n == 0 {
      assert CopyBytes(h, 1, d) == CopyBytes(h1, 0, d) == h1;
    } else {
      CopySnoc(h1, n - 1, d);
    }
  }

  predicate GoodToken(h: seq<byte>, t: Token)
  {
    t.Copy? ==> 3 <= t.length <= 258 && 1 <= t.distance <= 32768 && t.distance <= |h|
  }

  function ExpandOne(h: seq<byte>, t: Token): (r: seq<byte>)
    requires GoodToken(h, t)
    ensures h <= r
  {
    match t
    case Literal(b) => h + [b]
    case Copy(length, distance) => CopyBytes(h, length, distance)
  }

  /** Every copy has a length and a distance that deflate can express, and stays inside the bytes before it. */
  predicate GoodTokens(h: seq<byte>, toks: seq<Token>)
    decreases |toks|
  {
    toks == [] || (GoodToken(h, toks[0]) && GoodTokens(ExpandOne(h, toks[0]), toks[1..]))
  }

  /** The bytes h followed by what the tokens stand for. */
  function Expand(h: seq<byte>, toks: seq<Token>): (r: seq<byte>)
    requires GoodTokens(h, toks)
    ensures h <= r
    decreases |toks|
  {
    if toks == [] then h else Expand(ExpandOne(h, toks[0]), toks[1..])
  }

  lemma {:induction false} ExpandAppend(h: seq<byte>, a: seq<Token>, b: seq<Token>)
    requires GoodTokens(h, a)
    ensures GoodTokens(h, a + b) <==> GoodTokens(Expand(h, a), b)
    ensures GoodTokens(h, a + b) ==> Expand(h, a + b) == Expand(Expand(h, a), b)
    decreases |a|
  {
    if a == [] {
      assert a + b == b;
    } else {
      assert (a + b)[1..] == a[1..] + b;
      ExpandAppend(ExpandOne(h, a[0]), a[1..], b);
    }
  }

  /** The literal/length symbol and the distance symbol of a token. */
  function LitSym(t: Token): (s: nat)
    ensures s < 286 && s != 256
  {
    match t
    case Literal(b) => b
    case Copy(length, _) => 257 + LengthCode(if length < 3 then 0 else length - 3)
  }

  function DistSym(t: Token): (s: nat)
    requires t.Copy?
    ensures s < 30
  {
    DistCode(if t.distance == 0 then 0 else t.distance - 1)
  }

  /** The codes have a code for every symbol the token needs. */
  ghost predicate HasCodes(c: Codes, t: Token)
  {
    HasCode(c.ll, LitSym(t)) && (t.Copy? ==> HasCode(c.dl, DistSym(t)))
  }

  ghost predicate AllCodes(c: Codes, toks: seq<Token>)
  {
    forall t :: t in toks ==> HasCodes(c, t)
  }

  /** The bits of a copy: length code, extra bits, distance code, extra bits. */
  function LengthBits(c: Codes, length: nat): (b: Bits)
    requires 3 <= length <= 258 && 257 + LengthCode(length - 3) < |c.ll|
  {
    var s := LengthCode(length - 3);
    LengthCovers(length - 3);
    SymBits(c.ll, 257 + s) + BitsOf(length - LBASE[s], LengthExtra(s))
  }

  function DistanceBits(c: Codes, distance: nat): (b: Bits)
    requires 1 <= distance <= 32768 && DistCode(distance - 1) < |c.dl|
  {
    var s := DistCode(distance - 1);
    DistCovers(distance - 1);
    SymBits(c.dl, s) + BitsOf(distance - DBASE[s], DistExtra(s))
  }

  ghost function TokenBits(c: Codes, h: seq<byte>, t: Token): (b: Bits)
    requires GoodToken(h, t) && HasCodes(c, t)
  {
    hide LengthCode, DistCode;
    match t
    case Literal(b) => SymBits(c.ll, b)
    case Copy(length, distance) => LengthBits(c, length) + DistanceBits(c, distance)
  }

  ghost function TokensBits(c: Codes, h: seq<byte>, toks: seq<Token>): (b: Bits)
    requires GoodTokens(h, toks) && AllCodes(c, toks)
    decreases |toks|
  {
    if toks == [] then [] else TokenBits(c, h, toks[0]) + TokensBits(c, ExpandOne(h, toks[0]), toks[1..])
  }

  // ---------- reading what was written ----------

  lemma AtSplit(B: Bits, pos: nat, a: Bits, b: Bits)
    ensures At(B, pos, a + b) <==> At(B, pos, a) && At(B, pos + |a|, b)
  {
    if pos + |a| + |b| <= |B| {
      assert B[pos..pos + |a + b|] == B[pos..pos + |a|] + B[pos + |a|..pos + |a| + |b|];
      if At(B, pos, a + b) {
        assert B[pos..pos + |a|] == (a + b)[..|a|] == a;
        assert B[pos + |a|..pos + |a| + |b|] == (a + b)[|a|..] == b;
      }
    }
  }

  lemma NumOf(B: Bits, pos: nat, v: nat, n: nat)
    requires At(B, pos, BitsOf(v, n)) && v < Pow2(n)
    ensures pos + n <= |B| && Num(B, pos, n) == v
  {
    ValOfBitsOf(v, n);
    Small(v, n);
  }

  lemma ReadSymbol(B: Bits, pos: nat, kind: Kind, lens: seq<nat>, s: nat)
    requires ValidLens(lens) && Acceptable(kind, lens) && HasCode(lens, s) && At(B, pos, SymBits(lens, s))
    ensures Decode(B, pos, lens) == Symbol(s, lens[s])
  {
    AcceptableFits(kind, lens);
    DecodeIs(B, pos, lens, s);
  }

  lemma ReadLiteral(B: Bits, a: State, b: byte)
    requires GoodState(a) && a.mode.Len? && HasCode(a.mode.c.ll, b) && At(B, a.pos, SymBits(a.mode.c.ll, b))
    ensures Reach(B, a, a.(pos := a.pos + a.mode.c.ll[b], out := a.out + [b], toks := a.toks + [Literal(b)]))
  {
    hide Decode, Acceptable, SymBits, At;
    ReadSymbol(B, a.pos, LENS, a.mode.c.ll, b);
    var a1 := a.(mode := Lit(a.mode.c, b), pos := a.pos + a.mode.c.ll[b]);
    assert Next(B, a) == Some(a1);
    var a2 := a1.(mode := a.mode, out := a.out + [b], toks := a.toks + [Literal(b)]);
    assert Next(B, a1) == Some(a2);
    ReachNext(B, a, a1);
    ReachNext(B, a1, a2);
    ReachTrans(B, a, a1, a2);
  }

  lemma ReadLengthSymbol(B: Bits, a: State, s: nat)
    requires GoodState(a) && a.mode.Len? && s < 29 && LEXT[s] == 16 + LengthExtra(s) && HasCode(a.mode.c.ll, 257 + s)
    requires At(B, a.pos, SymBits(a.mode.c.ll, 257 + s))
    ensures Next(B, a) == Some(a.(mode := LenExt(a.mode.c, LBASE[s], LengthExtra(s)),
             pos := a.pos + a.mode.c.ll[257 + s]))
  {
    hide Decode, Acceptable, SymBits, At;
    ReadSymbol(B, a.pos, LENS, a.mode.c.ll, 257 + s);
  }

  lemma ReadDistanceSymbol(B: Bits, a: State, s: nat)
    requires GoodState(a) && a.mode.Dist? && s < 30 && DEXT[s] == 16 + DistExtra(s) && HasCode(a.mode.c.dl, s)
    requires At(B, a.pos, SymBits(a.mode.c.dl, s))
    ensures Next(B, a) == Some(a.(mode := DistExt(a.mode.c, a.mode.length, DBASE[s], DistExtra(s)),
             pos := a.pos + a.mode.c.dl[s]))
  {
    hide Decode, Acceptable, SymBits, At;
    ReadSymbol(B, a.pos, DISTS, a.mode.c.dl, s);
  }

  lemma ReadLengthExtra(B: Bits, a: State, length: nat)
    requires a.mode.LenExt? && a.mode.base <= length < a.mode.base + Pow2(a.mode.extra)
    requires At(B, a.pos, BitsOf(length - a.mode.base, a.mode.extra))
    ensures Next(B, a) == Some(a.(mode := Dist(a.mode.c, length), pos := a.pos + a.mode.extra))
  {
    NumOf(B, a.pos, length - a.mode.base, a.mode.extra);
  }

  lemma ReadDistanceExtra(B: Bits, a: State, distance: nat)
    requires a.mode.DistExt? && a.mode.base <= distance < a.mode.base + Pow2(a.mode.extra) && distance <= |a.out|
    requires At(B, a.pos, BitsOf(distance - a.mode.base, a.mode.extra))
    ensures Next(B, a) == Some(a.(mode := Match(a.mode.c, a.mode.length, distance), pos := a.pos + a.mode.extra,
                                  toks := a.toks + [Copy(a.mode.length, distance)]))
  {
    NumOf(B, a.pos, distance - a.mode.base, a.mode.extra);
  }

  lemma ReadLength(B: Bits, a: State, length: nat)
    requires GoodState(a) && a.mode.Len? && 3 <= length <= 258 && HasCode(a.mode.c.ll, 257 + LengthCode(length - 3))
    requires At(B, a.pos, LengthBits(a.mode.c, length))
    ensures Reach(B, a, a.(mode := Dist(a.mode.c, length), pos := a.pos + |LengthBits(a.mode.c, length)|))
  {
    hide GoodState, SymBits, At, LengthCode, Pow2, Next, Reach, BitsOf;
    var c := a.mode.c;
    var s := LengthCode(length - 3);
    LengthCovers(length - 3);
    AtSplit(B, a.pos, SymBits(c.ll, 257 + s), BitsOf(length - LBASE[s], LengthExtra(s)));
    var a1 := a.(mode := LenExt(c, LBASE[s], LengthExtra(s)), pos := a.pos + c.ll[257 + s]);
    ReadLengthSymbol(B, a, s);
    ReadLengthExtra(B, a1, length);
    var a2 := a1.(mode := Dist(c, length), pos := a1.pos + LengthExtra(s));
    ReachNext(B, a, a1);
    ReachNext(B, a1, a2);
    ReachTrans(B, a, a1, a2);
  }

  lemma ReadDistance(B: Bits, a: State, distance: nat)
    requires GoodState(a) && a.mode.Dist? && 1 <= distance <= 32768 && distance <= |a.out|
    requires HasCode(a.mode.c.dl, DistCode(distance - 1)) && At(B, a.pos, DistanceBits(a.mode.c, distance))
    ensures Reach(B, a, a.(mode := Match(a.mode.c, a.mode.length, distance),
             toks := a.toks + [Copy(a.mode.length, distance)],
                           pos := a.pos + |DistanceBits(a.mode.c, distance)|))
  {
    hide GoodState, SymBits, At, DistCode, DistExtra, Pow2, Next, Reach, BitsOf, Canonical.Code;
    var c := a.mode.c;
    var s := DistCode(distance - 1);
    DistCovers(distance - 1);
    AtSplit(B, a.pos, SymBits(c.dl, s), BitsOf(distance - DBASE[s], DistExtra(s)));
    var a1 := a.(mode := DistExt(c, a.mode.length, DBASE[s], DistExtra(s)), pos := a.pos + c.dl[s]);
    ReadDistanceSymbol(B, a, s);
    ReadDistanceExtra(B, a1, distance);
    var a2 := a1.(mode := Match(c, a.mode.length, distance), pos := a1.pos + DistExtra(s),
                  toks := a.toks + [Copy(a.mode.length, distance)]);
    ReachNext(B, a, a1);
    ReachNext(B, a1, a2);
    ReachTrans(B, a, a1, a2);
  }

  lemma {:induction false} ReadMatch(B: Bits, a: State)
    requires a.mode.Match? && a.mode.length >= 1 && 1 <= a.mode.offset <= |a.out|
    ensures Reach(B, a, a.(mode := Len(a.mode.c), out := CopyBytes(a.out, a.mode.length, a.mode.offset)))
    decreases a.mode.length
  {
    hide Reach;
    var m := a.mode;
    var out := a.out + [a.out[|a.out| - m.offset]];
    if m.length == 1 {
      assert CopyBytes(a.out, 1, m.offset) == CopyBytes(out, 0, m.offset) == out;
      ReachNext(B, a, a.(mode := Len(m.c), out := out));
    } else {
      var b := a.(mode := Match(m.c, m.length - 1, m.offset), out := out);
      ReachNext(B, a, b);
      ReadMatch(B, b);
      assert CopyBytes(a.out, m.length, m.offset) == CopyBytes(out, m.length - 1, m.offset);
      ReachTrans(B, a, b, a.(mode := Len(m.c), out := CopyBytes(a.out, m.length, m.offset)));
    }
  }

  lemma ReadToken(B: Bits, a: State, t: Token)
    requires GoodState(a) && a.mode.Len? && GoodToken(a.out, t) && HasCodes(a.mode.c, t)
    requires At(B, a.pos, TokenBits(a.mode.c, a.out, t))
    ensures Reach(B, a, a.(pos := a.pos + |TokenBits(a.mode.c, a.out, t)|, out := ExpandOne(a.out, t),
             toks := a.toks + [t]))
  {
    hide Acceptable, SymBits, At, Reach, LengthBits, DistanceBits, LengthCode, DistCode, CopyBytes;
    if t.Literal? {
      ReadLiteral(B, a, t.b);
    } else {
      var c := a.mode.c;
      AtSplit(B, a.pos, LengthBits(c, t.length), DistanceBits(c, t.distance));
      ReadLength(B, a, t.length);
      var a1 := a.(mode := Dist(c, t.length), pos := a.pos + |LengthBits(c, t.length)|);
      ReadDistance(B, a1, t.distance);
      var a2 := a1.(mode := Match(c, t.length, t.distance), toks := a.toks + [t],
          pos := a1.pos + |DistanceBits(c, t.distance)|);
      ReadMatch(B, a2);
      var a3 := a2.(mode := a.mode, out := CopyBytes(a.out, t.length, t.distance));
      ReachTrans(B, a, a1, a2);
      ReachTrans(B, a, a2, a3);
    }
  }

  lemma {:induction false} ReadTokens(B: Bits, a: State, toks: seq<Token>)
    requires GoodState(a) && a.mode.Len? && GoodTokens(a.out, toks) && AllCodes(a.mode.c, toks)
    requires At(B, a.pos, TokensBits(a.mode.c, a.out, toks))
    ensures Reach(B, a, a.(pos := a.pos + |TokensBits(a.mode.c, a.out, toks)|, out := Expand(a.out, toks),
             toks := a.toks + toks))
    decreases |toks|
  {
    hide At, Reach, TokenBits, HasCodes, ExpandOne, GoodToken;
    if toks == [] {
      assert a.toks + toks == a.toks;
      ReachSelf(B, a);
    } else {
      var c := a.mode.c;
      var b := TokenBits(c, a.out, toks[0]);
      AtSplit(B, a.pos, b, TokensBits(c, ExpandOne(a.out, toks[0]), toks[1..]));
      ReadToken(B, a, toks[0]);
      var a1 := a.(pos := a.pos + |b|, out := ExpandOne(a.out, toks[0]), toks := a.toks + [toks[0]]);
      ReadTokens(B, a1, toks[1..]);
      assert a1.toks + toks[1..] == a.toks + toks;
      ReachTrans(B, a, a1, a.(pos := a.pos + |TokensBits(c, a.out, toks)|, out := Expand(a.out, toks),
          toks := a.toks + toks));
    }
  }

  /** The tokens of a block and the end-of-block code. */
  ghost function BodyBits(c: Codes, h: seq<byte>, toks: seq<Token>): (b: Bits)
    requires GoodTokens(h, toks) && AllCodes(c, toks) && HasCode(c.ll, 256)
  {
    TokensBits(c, h, toks) + SymBits(c.ll, 256)
  }

  /** The body of a block, read back: the same tokens, and a stop right after the end-of-block code. */
  lemma ReadBody(B: Bits, a: State, toks: seq<Token>)
    requires GoodState(a) && a.mode.Len? && GoodTokens(a.out, toks) && AllCodes(a.mode.c, toks)
    requires HasCode(a.mode.c.ll, 256)
    requires At(B, a.pos, BodyBits(a.mode.c, a.out, toks))
    ensures Reach(B, a, a.(mode := Type, pos := a.pos + |BodyBits(a.mode.c, a.out, toks)|,
                           out := Expand(a.out, toks), toks := a.toks + toks))
  {
    hide At, Reach, TokensBits, SymBits, Decode, Acceptable, AllCodes, GoodTokens, Expand;
    var c := a.mode.c;
    AtSplit(B, a.pos, TokensBits(c, a.out, toks), SymBits(c.ll, 256));
    ReadTokens(B, a, toks);
    var a1 := a.(pos := a.pos + |TokensBits(c, a.out, toks)|, out := Expand(a.out, toks), toks := a.toks + toks);
    ReadSymbol(B, a1.pos, LENS, c.ll, 256);
    var a2 := a1.(mode := Type, pos := a1.pos + c.ll[256]);
    assert Next(B, a1) == Some(a2);
    ReachNext(B, a1, a2);
    ReachTrans(B, a, a1, a2);
  }
}
