/**
 How many bits a block takes: the sums of frequency times code length that build_tree keeps in
 opt_len and static_len are the lengths of what is sent.
 */
module BlockLength {
  import opened Shift
  import opened Bits
  import opened Canonical
  import opened InfTreesSpec
  import opened Format
  import opened FormatFacts
  import opened BlockCode
  import opened RunLength
  import opened BlockRoundTrip
  import opened BitLengths
  import opened DynTree
  import opened StaticTables

  // ---------- sums over the symbols sent ----------

  /** How often each symbol below n occurs. */
  function Occs(syms: seq<nat>, n: nat): (f: seq<nat>)
    ensures |f| == n && forall s :: 0 <= s < n ==> f[s] == Count(syms, s)
  {
    seq(n, s requires 0 <= s < n => Count(syms, s))
  }

  ghost predicate AllBelow(syms: seq<nat>, n: nat)
  {
    forall i :: 0 <= i < |syms| ==> syms[i] < n
  }

  /** What the symbols cost one by one. */
  function CostOf(syms: seq<nat>, g: seq<nat>): nat
    requires AllBelow(syms, |g|)
  {
    if syms == [] then 0 else CostOf(syms[..|syms| - 1], g) + g[syms[|syms| - 1]]
  }

  /** What they cost by frequency. */
  function Weighted(f: seq<nat>, g: seq<nat>, n: nat): nat
    requires n <= |f| && n <= |g|
  {
    if n == 0 then 0 else Weighted(f, g, n - 1) + f[n - 1] * g[n - 1]
  }

  lemma {:induction false} CostAppend(a: seq<nat>, b: seq<nat>, g: seq<nat>)
    requires AllBelow(a, |g|) && AllBelow(b, |g|)
    ensures AllBelow(a + b, |g|) && CostOf(a + b, g) == CostOf(a, g) + CostOf(b, g)
  {
    if b == [] {
      assert a + b == a;
    } else {
      assert (a + b)[..|a + b| - 1] == a + b[..|b| - 1];
      CostAppend(a, b[..|b| - 1], g);
    }
  }

  lemma CostSingle(s: nat, g: seq<nat>)
    requires s < |g|
    ensures CostOf([s], g) == g[s]
  {
    assert [s][..0] == [];
  }

  lemma {:induction false} WeightedMore(f: seq<nat>, f1: seq<nat>, g: seq<nat>, s: nat, n: nat)
    requires n <= |f| == |f1| && n <= |g| && s < |f|
    requires forall i :: 0 <= i < |f| ==> f1[i] == f[i] + if i == s then 1 else 0
    ensures Weighted(f1, g, n) == Weighted(f, g, n) + if s < n then g[s] else 0
  {
    if n > 0 {
      WeightedMore(f, f1, g, s, n - 1);
    }
  }

  lemma {:induction false} WeightedZero(f: seq<nat>, g: seq<nat>, n: nat)
    requires n <= |f| && n <= |g| && forall i :: 0 <= i < n ==> f[i] == 0
    ensures Weighted(f, g, n) == 0
  {
    if n > 0 {
      WeightedZero(f, g, n - 1);
    }
  }

  lemma {:induction false} CostIsWeighted(syms: seq<nat>, g: seq<nat>, n: nat)
    requires AllBelow(syms, n) && n == |g|
    ensures CostOf(syms, g) == Weighted(Occs(syms, n), g, n)
  {
    if syms == [] {
      WeightedZero(Occs(syms, n), g, n);
    } else {
      var k := |syms| - 1;
      CostIsWeighted(syms[..k], g, n);
      WeightedMore(Occs(syms[..k], n), Occs(syms, n), g, syms[k], n);
    }
  }

  lemma {:induction false} TotalOccs(syms: seq<nat>, n: nat)
    requires AllBelow(syms, n)
    ensures Total(Occs(syms, n), n) == |syms|
  {
    if syms == [] {
      TotalZero(Occs(syms, n), n);
    } else {
      var k := |syms| - 1;
      TotalOccs(syms[..k], n);
      TotalMore(Occs(syms[..k], n), Occs(syms, n), syms[k], n);
    }
  }

  lemma {:induction false} TotalZero(f: seq<nat>, n: nat)
    requires n <= |f| && forall i :: 0 <= i < n ==> f[i] == 0
    ensures Total(f, n) == 0
  {
    if n > 0 {
      TotalZero(f, n - 1);
    }
  }

  lemma {:induction false} TotalMore(f: seq<nat>, f1: seq<nat>, s: nat, n: nat)
    requires n <= |f| == |f1| && s < |f|
    requires forall i :: 0 <= i < |f| ==> f1[i] == f[i] + if i == s then 1 else 0
    ensures Total(f1, n) == Total(f, n) + if s < n then 1 else 0
  {
    if n > 0 {
      TotalMore(f, f1, s, n - 1);
    }
  }

  function Plus(a: seq<nat>, b: seq<nat>): (r: seq<nat>)
    requires |a| <= |b|
    ensures |r| == |a| && forall i :: 0 <= i < |a| ==> r[i] == a[i] + b[i]
  {
    seq(|a|, i requires 0 <= i < |a| => a[i] + b[i])
  }

  lemma {:induction false} BitsTotalIs(f: seq<nat>, lens: seq<nat>, xb: seq<nat>, n: nat)
    requires n <= |f| && n <= |lens| <= |xb| && forall i :: 0 <= i < n && f[i] > 0 ==> lens[i] > 0
    ensures BitsTotal(f, lens, xb, n) == Weighted(f, Plus(lens, xb), n)
  {
    if n > 0 {
      BitsTotalIs(f, lens, xb, n - 1);
    }
  }

  lemma {:induction false} StaticTotalIs(f: seq<nat>, lens: seq<nat>, slens: seq<nat>, xb: seq<nat>, n: nat)
    requires n <= |f| && n <= |lens| && n <= |slens| <= |xb| && forall i :: 0 <= i < n && f[i] > 0 ==> lens[i] > 0
    ensures StaticTotal(f, lens, slens, xb, n) == Weighted(f, Plus(slens, xb), n)
  {
    if n > 0 {
      StaticTotalIs(f, lens, slens, xb, n - 1);
    }
  }

  lemma {:induction false} WeightedTrim(f: seq<nat>, g: seq<nat>, f1: seq<nat>, g1: seq<nat>, k: nat, n: nat)
    requires k <= n <= |f| && n <= |g| && k <= |f1| && k <= |g1|
    requires (forall i :: 0 <= i < k ==> f1[i] == f[i] && g1[i] == g[i]) && forall i :: k <= i < n ==> f[i] == 0
    ensures Weighted(f, g, n) == Weighted(f1, g1, k)
    decreases n
  {
    if n > k {
      WeightedTrim(f, g, f1, g1, k, n - 1);
    } else if n > 0 {
      WeightedTrim(f, g, f1, g1, k - 1, n - 1);
    }
  }

  // ---------- the symbols of a block ----------

  function LitSyms(toks: seq<Token>): (r: seq<nat>)
    ensures |r| == |toks|
  {
    seq(|toks|, i requires 0 <= i < |toks| => LitSym(toks[i]))
  }

  function DistSyms(toks: seq<Token>): (r: seq<nat>)
    ensures |r| <= |toks| && forall i :: 0 <= i < |r| ==> r[i] < 30
    decreases |toks|
  {
    if toks == [] then []
    else (if toks[0].Copy? then [DistSym(toks[0])] else []) + DistSyms(toks[1..])
  }

  lemma {:induction false} DistSymsAppend(a: seq<Token>, b: seq<Token>)
    ensures DistSyms(a + b) == DistSyms(a) + DistSyms(b)
    decreases |a|
  {
    if a == [] {
      assert a + b == b;
    } else {
      assert (a + b)[1..] == a[1..] + b;
      DistSymsAppend(a[1..], b);
    }
  }

  /** The extra bits of the literal/length symbols, and of the distance symbols. */
  function LitExtra(): (xb: seq<nat>)
    ensures |xb| == 288
  {
    seq(288, s => if 257 <= s < 286 then LengthExtra(s - 257) else 0)
  }

  function DistExtras(): (xb: seq<nat>)
    ensures |xb| == 32
  {
    seq(32, s requires 0 <= s => if s < 30 then DistExtra(s) else 0)
  }

  function RunExtra(): (xb: seq<nat>)
    ensures |xb| == 19
  {
    seq(19, s requires 0 <= s => if s < 16 then 0 else RepeatBits(s))
  }

  ghost predicate Sized(c: Codes)
  {
    |c.ll| <= 288 && |c.dl| <= 32
  }

  lemma TokenLength(c: Codes, h: seq<byte>, t: Token)
    requires Sized(c) && GoodToken(h, t) && HasCodes(c, t)
    ensures |TokenBits(c, h, t)| == Plus(c.ll, LitExtra())[LitSym(t)] + if t.Copy?
             then Plus(c.dl, DistExtras())[DistSym(t)] else 0
  {
    hide LengthCode, DistCode, SymBits, BitsOf, LengthExtra, DistExtra;
    if t.Copy? {
      CopyLength(c, t.length, t.distance);
    }
  }

  lemma CopyLength(c: Codes, length: nat, distance: nat)
    requires Sized(c) && 3 <= length <= 258 && 1 <= distance <= 32768
    requires HasCode(c.ll, 257 + LengthCode(length - 3)) && HasCode(c.dl, DistCode(distance - 1))
    ensures |LengthBits(c, length)| == c.ll[257 + LengthCode(length - 3)] + LengthExtra(LengthCode(length - 3))
    ensures |DistanceBits(c, distance)| == c.dl[DistCode(distance - 1)] + DistExtra(DistCode(distance - 1))
  {
    hide LengthCode, DistCode, LengthExtra, DistExtra;
  }

  lemma SymbolsFit(c: Codes, toks: seq<Token>)
    requires AllCodes(c, toks)
    ensures AllBelow(LitSyms(toks), |c.ll|) && AllBelow(DistSyms(toks), |c.dl|)
    decreases |toks|
  {
    hide LitSym, DistSym;
    if toks != [] {
      assert toks[0] in toks;
      assert AllCodes(c, toks[1..]);
      SymbolsFit(c, toks[1..]);
      assert HasCodes(c, toks[0]);
      forall i | 0 <= i < |LitSyms(toks)|
        ensures LitSyms(toks)[i] < |c.ll|
      {
        assert toks[i] in toks;
      }
    }
  }

  lemma NoTokensLength(c: Codes, h: seq<byte>)
    requires Sized(c)
    ensures TokensBits(c, h, []) == [] && LitSyms([]) == [] && DistSyms([]) == []
  {
  }

  lemma TokensUnfold(c: Codes, h: seq<byte>, toks: seq<Token>)
    requires toks != [] && GoodTokens(h, toks) && AllCodes(c, toks)
    ensures GoodToken(h, toks[0]) && HasCodes(c, toks[0]) && GoodTokens(ExpandOne(h, toks[0]), toks[1..])
    ensures AllCodes(c, toks[1..])
    ensures TokensBits(c, h, toks) == TokenBits(c, h, toks[0]) + TokensBits(c, ExpandOne(h, toks[0]), toks[1..])
  {
    hide LitSym, DistSym, TokenBits, ExpandOne, GoodToken, HasCodes;
    assert toks[0] in toks;
    assert AllCodes(c, toks[1..]);
  }

  lemma CostCons(all: seq<nat>, s: nat, rest: seq<nat>, g: seq<nat>)
    requires all == [s] + rest && AllBelow(all, |g|)
    ensures s < |g| && AllBelow(rest, |g|) && CostOf(all, g) == g[s] + CostOf(rest, g)
  {
    hide CostOf, AllBelow;
    PartsBelow([s], rest, |g|);
    OneBelow(s, |g|);
    CostAppend([s], rest, g);
    CostSingle(s, g);
  }

  lemma OneBelow(s: nat, n: nat)
    requires AllBelow([s], n)
    ensures s < n
  {
    assert [s][0] < n;
  }

  lemma SymsCons(toks: seq<Token>)
    requires toks != []
    ensures LitSyms(toks) == [LitSym(toks[0])] + LitSyms(toks[1..])
    ensures DistSyms(toks) == (if toks[0].Copy? then [DistSym(toks[0])] else []) + DistSyms(toks[1..])
  {
    hide LitSym, DistSym;
  }

  /** One token more in front: what its symbols cost is added. */
  lemma CostsUnfold(toks: seq<Token>, gl: seq<nat>, gd: seq<nat>)
    requires toks != [] && AllBelow(LitSyms(toks), |gl|) && AllBelow(DistSyms(toks), |gd|)
    ensures AllBelow(LitSyms(toks[1..]), |gl|) && AllBelow(DistSyms(toks[1..]), |gd|) && LitSym(toks[0]) < |gl|
    ensures CostOf(LitSyms(toks), gl) == gl[LitSym(toks[0])] + CostOf(LitSyms(toks[1..]), gl)
    ensures toks[0].Copy? ==> DistSym(toks[0]) < |gd|
    ensures CostOf(DistSyms(toks), gd) == (if toks[0].Copy? then gd[DistSym(toks[0])] else 0)
             + CostOf(DistSyms(toks[1..]), gd)
  {
    hide LitSym, DistSym, CostOf, LitSyms, DistSyms, AllBelow;
    SymsCons(toks);
    CostCons(LitSyms(toks), LitSym(toks[0]), LitSyms(toks[1..]), gl);
    if toks[0].Copy? {
      CostCons(DistSyms(toks), DistSym(toks[0]), DistSyms(toks[1..]), gd);
    } else {
      assert DistSyms(toks) == DistSyms(toks[1..]);
    }
  }

  lemma PartsBelow(a: seq<nat>, b: seq<nat>, n: nat)
    requires AllBelow(a + b, n)
    ensures AllBelow(a, n) && AllBelow(b, n)
  {
    forall i | 0 <= i < |a|
      ensures a[i] < n
    {
      assert a[i] == (a + b)[i];
    }
    forall i | 0 <= i < |b|
      ensures b[i] < n
    {
      assert b[i] == (a + b)[|a| + i];
    }
  }

  /** The length of the tokens' bits, symbol by symbol. */
  lemma {:induction false} TokensLength(c: Codes, h: seq<byte>, toks: seq<Token>)
    requires Sized(c) && GoodTokens(h, toks) && AllCodes(c, toks)
    ensures AllBelow(LitSyms(toks), |c.ll|) && AllBelow(DistSyms(toks), |c.dl|)
    ensures |TokensBits(c, h, toks)| == CostOf(LitSyms(toks), Plus(c.ll, LitExtra()))
             + CostOf(DistSyms(toks), Plus(c.dl, DistExtras()))
    decreases |toks|
  {
    hide LitSym, DistSym, TokenBits, ExpandOne, GoodToken, HasCodes, TokensBits, CostOf, LitSyms, DistSyms, GoodTokens,
         AllCodes;
    SymbolsFit(c, toks);
    var gl, gd := Plus(c.ll, LitExtra()), Plus(c.dl, DistExtras());
    if toks == [] {
      NoTokensLength(c, h);
      NoCost(gl);
      NoCost(gd);
    } else {
      TokensUnfold(c, h, toks);
      TokensLength(c, ExpandOne(h, toks[0]), toks[1..]);
      TokenLength(c, h, toks[0]);
      CostsUnfold(toks, gl, gd);
    }
  }

  lemma NoCost(g: seq<nat>)
    ensures CostOf([], g) == 0
  {
  }

  // ---------- the body of a block ----------

  /** All literal/length symbols of a block, and how often each occurs. */
  function BlockSyms(toks: seq<Token>): (r: seq<nat>)
    ensures |r| == |toks| + 1
  {
    LitSyms(toks) + [256]
  }

  function LitFreqs(toks: seq<Token>): (f: seq<nat>)
    ensures |f| == 286
  {
    Occs(BlockSyms(toks), 286)
  }

  function DistFreqs(toks: seq<Token>): (f: seq<nat>)
    ensures |f| == 30
  {
    Occs(DistSyms(toks), 30)
  }

  /** Every symbol that occurs has a length. */
  ghost predicate Covers(f: seq<nat>, lens: seq<nat>)
  {
    |lens| <= |f| && forall s :: 0 <= s < |f| && f[s] > 0 ==> s < |lens| && lens[s] > 0
  }

  lemma CoveredBelow(syms: seq<nat>, n: nat, lens: seq<nat>)
    requires AllBelow(syms, n) && Covers(Occs(syms, n), lens)
    ensures AllBelow(syms, |lens|) && forall i :: 0 <= i < |syms| ==> HasCode(lens, syms[i])
  {
    forall i | 0 <= i < |syms|
      ensures HasCode(lens, syms[i])
    {
      CountPositive(syms, i);
      assert Occs(syms, n)[syms[i]] > 0;
    }
  }

  /** The codes of the symbols that occur are enough for the tokens. */
  lemma TokensCovered(c: Codes, toks: seq<Token>)
    requires Covers(LitFreqs(toks), c.ll) && Covers(DistFreqs(toks), c.dl)
    ensures AllCodes(c, toks) && HasCode(c.ll, 256)
  {
    hide LitSym, DistSym;
    CoveredBelow(BlockSyms(toks), 286, c.ll);
    CoveredBelow(DistSyms(toks), 30, c.dl);
    assert BlockSyms(toks)[|toks|] == 256;
    forall t | t in toks
      ensures HasCodes(c, t)
    {
      var i :| 0 <= i < |toks| && toks[i] == t;
      assert BlockSyms(toks)[i] == LitSym(t);
      if t.Copy? {
        var k := DistAt(toks, i);
      }
    }
  }

  lemma {:induction false} DistAt(toks: seq<Token>, i: nat) returns (k: nat)
    requires i < |toks| && toks[i].Copy?
    ensures k < |DistSyms(toks)| && DistSyms(toks)[k] == DistSym(toks[i])
    decreases i
  {
    if i == 0 {
      k := 0;
    } else {
      var j := DistAt(toks[1..], i - 1);
      k := if toks[0].Copy? then j + 1 else j;
    }
  }

  lemma SumOf(syms: seq<nat>, n: nat, lens: seq<nat>, xb: seq<nat>)
    requires AllBelow(syms, n) && Covers(Occs(syms, n), lens) && |lens| <= |xb|
    ensures AllBelow(syms, |lens|)
    ensures CostOf(syms, Plus(lens, xb)) == BitsTotal(Occs(syms, n), lens, xb, |lens|)
  {
    CoveredBelow(syms, n, lens);
    CostIsWeighted(syms, Plus(lens, xb), |lens|);
    BitsTotalIs(Occs(syms, n), lens, xb, |lens|);
    WeightedTrim(Occs(syms, n), Plus(lens, xb), Occs(syms, |lens|), Plus(lens, xb), |lens|, |lens|);
  }

  /** The body takes as many bits as the frequencies of its symbols say. */
  lemma BodyLength(c: Codes, h: seq<byte>, toks: seq<Token>)
    requires GoodTokens(h, toks) && Sized(c) && Covers(LitFreqs(toks), c.ll) && Covers(DistFreqs(toks), c.dl)
    ensures AllCodes(c, toks) && HasCode(c.ll, 256)
    ensures |BodyBits(c, h, toks)|
            == BitsTotal(LitFreqs(toks), c.ll, LitExtra(), |c.ll|)
                + BitsTotal(DistFreqs(toks), c.dl, DistExtras(), |c.dl|)
  {
    hide GoodTokens, BitsTotal, CostOf, Count, SymBits, TokensBits, AllCodes;
    TokensCovered(c, toks);
    TokensLength(c, h, toks);
    var gl := Plus(c.ll, LitExtra());
    CostSingle(256, gl);
    CostAppend(LitSyms(toks), [256], gl);
    BelowAll(toks);
    SumOf(BlockSyms(toks), 286, c.ll, LitExtra());
    SumOf(DistSyms(toks), 30, c.dl, DistExtras());
  }

  lemma BelowAll(toks: seq<Token>)
    ensures AllBelow(BlockSyms(toks), 286) && AllBelow(DistSyms(toks), 30)
  {
  }

  lemma SumOfStatic(syms: seq<nat>, n: nat, lens: seq<nat>, slens: seq<nat>, xb: seq<nat>)
    requires AllBelow(syms, n) && Covers(Occs(syms, n), lens) && |lens| <= n <= |slens| <= |xb|
    ensures AllBelow(syms, |slens|)
    ensures CostOf(syms, Plus(slens, xb)) == StaticTotal(Occs(syms, n), lens, slens, xb, |lens|)
  {
    var f := Occs(syms, n);
    CoveredBelow(syms, n, lens);
    CostIsWeighted(syms, Plus(slens, xb), |slens|);
    StaticTotalIs(f, lens, slens, xb, |lens|);
    var all := Occs(syms, |slens|);
    forall i | |lens| <= i < |slens|
      ensures all[i] == 0
    {
      CountZero(syms, i);
    }
    WeightedTrim(all, Plus(slens, xb), f, Plus(slens, xb), |lens|, |slens|);
  }

  /** The body with the fixed codes takes as many bits as the static sums say. */
  lemma StaticBodyLength(c: Codes, h: seq<byte>, toks: seq<Token>)
    requires GoodTokens(h, toks) && Covers(LitFreqs(toks), c.ll) && Covers(DistFreqs(toks), c.dl)
    ensures AllCodes(FixedCodes(), toks) && HasCode(FixedLens(), 256)
    ensures |BodyBits(FixedCodes(), h, toks)|
            == StaticTotal(LitFreqs(toks), c.ll, FixedLens(), LitExtra(), |c.ll|)
               + StaticTotal(DistFreqs(toks), c.dl, FixedDists(), DistExtras(), |c.dl|)
  {
    hide GoodTokens, StaticTotal, CostOf, Count, SymBits, TokensBits, AllCodes;
    FixedHasAll(toks);
    TokensLength(FixedCodes(), h, toks);
    var gl := Plus(FixedLens(), LitExtra());
    CostSingle(256, gl);
    CostAppend(LitSyms(toks), [256], gl);
    BelowAll(toks);
    SumOfStatic(BlockSyms(toks), 286, c.ll, FixedLens(), LitExtra());
    SumOfStatic(DistSyms(toks), 30, c.dl, FixedDists(), DistExtras());
  }

  // ---------- the transmitted lengths ----------

  lemma {:induction false} OpsLength(cl: seq<nat>, ops: seq<Op>)
    requires |cl| <= 19 && HasOps(cl, ops)
    ensures AllBelow(Syms(ops), |cl|) && |OpsBits(cl, ops)| == CostOf(Syms(ops), Plus(cl, RunExtra()))
    decreases |ops|
  {
    hide SymBits, BitsOf;
    forall i | 0 <= i < |ops|
      ensures Syms(ops)[i] < |cl|
    {
      assert ops[i] in ops;
    }
    if ops != [] {
      var g := Plus(cl, RunExtra());
      assert HasOps(cl, ops[1..]);
      OpsLength(cl, ops[1..]);
      assert Syms(ops) == [ops[0].sym] + Syms(ops[1..]);
      CostAppend([ops[0].sym], Syms(ops[1..]), g);
      CostSingle(ops[0].sym, g);
    }
  }

  /** The run-length symbols of both lists of lengths. */
  function TreeSyms(c: Codes): seq<nat>
  {
    Syms(Ops(c.ll, 0, 0, -1)) + Syms(Ops(c.dl, 0, 0, -1))
  }

  lemma OpsCovered(cl: seq<nat>, ops: seq<Op>, syms: seq<nat>)
    requires AllBelow(syms, 19) && Covers(Occs(syms, 19), cl) && forall i :: 0 <= i < |ops| ==> ops[i].sym in syms
    ensures HasOps(cl, ops)
  {
    CoveredBelow(syms, 19, cl);
    forall op | op in ops
      ensures HasCode(cl, op.sym)
    {
      var i :| 0 <= i < |ops| && ops[i] == op;
      var k :| 0 <= k < |syms| && syms[k] == op.sym;
    }
  }

  lemma TreeSymsBelow(c: Codes)
    requires ValidLens(c.ll) && ValidLens(c.dl)
    ensures AllBelow(TreeSyms(c), 19)
  {
    SmallLens(c.ll);
    SmallLens(c.dl);
    OpsSymbols(c.ll, 0, 0, -1);
    OpsSymbols(c.dl, 0, 0, -1);
  }

  /** The transmitted lengths take as many bits as the frequencies of the run-length symbols say. */
  lemma LensLength(t: Trees)
    requires |t.cl| <= 19 && ValidLens(t.c.ll) && ValidLens(t.c.dl) && Covers(Occs(TreeSyms(t.c), 19), t.cl)
    ensures HasOps(t.cl, Ops(t.c.ll, 0, 0, -1)) && HasOps(t.cl, Ops(t.c.dl, 0, 0, -1))
    ensures |LensBits(t)| == BitsTotal(Occs(TreeSyms(t.c), 19), t.cl, RunExtra(), |t.cl|)
  {
    hide Ops, Count, BitsTotal, OpsBits, CostOf;
    var l, d := Ops(t.c.ll, 0, 0, -1), Ops(t.c.dl, 0, 0, -1);
    TreeSymsBelow(t.c);
    assert forall i :: 0 <= i < |l| ==> l[i].sym == TreeSyms(t.c)[i];
    assert forall i :: 0 <= i < |d| ==> d[i].sym == TreeSyms(t.c)[|l| + i];
    OpsCovered(t.cl, l, TreeSyms(t.c));
    OpsCovered(t.cl, d, TreeSyms(t.c));
    OpsLength(t.cl, l);
    OpsLength(t.cl, d);
    CostAppend(Syms(l), Syms(d), Plus(t.cl, RunExtra()));
    SumOf(TreeSyms(t.c), 19, t.cl, RunExtra());
  }
}
