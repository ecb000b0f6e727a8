/** What every run of the machine of module Format keeps, and why more input never changes what was read. */
module FormatFacts {
  import opened Shift
  import opened Bits
  import opened Canonical
  import opened InfTreesSpec
  import opened Format

  // ---------- decoding one symbol ----------

  lemma NoCodesFit(lens: seq<nat>, m: nat)
    requires NoCodes(lens)
    ensures NextCode(lens, m) == 0 && Used(lens, m) == 0
  {
    if m > 0 {
      NoCodesFit(lens, m - 1);
      CountZero(lens, m);
    }
  }

  lemma AcceptableFits(kind: Kind, lens: seq<nat>)
    requires Acceptable(kind, lens)
    ensures NotOver(lens)
    ensures !Complete(lens) ==> forall s: nat :: HasCode(lens, s) ==> lens[s] == 1
  {
    if NoCodes(lens) {
      NoCodesFit(lens, MAXBITS);
    }
  }

  /** At most one code is at a position: decoding is what the encoder meant. */
  lemma DecodeIs(B: Bits, pos: nat, lens: seq<nat>, s: nat)
    requires ValidLens(lens) && NotOver(lens) && CodeAt(B, pos, lens, s)
    ensures Decode(B, pos, lens) == Symbol(s, lens[s])
  {
    hide SymBits, Code, NotOver;
    var t := Decode(B, pos, lens).s;
    assert CodeAt(B, pos, lens, t);
    if lens[s] <= lens[t] {
      Prefixes(B, pos, lens, s, t);
      PrefixFree(lens, s, t);
    } else {
      Prefixes(B, pos, lens, t, s);
      PrefixFree(lens, t, s);
    }
  }

  lemma Prefixes(B: Bits, pos: nat, lens: seq<nat>, s: nat, t: nat)
    requires CodeAt(B, pos, lens, s) && CodeAt(B, pos, lens, t) && lens[s] <= lens[t]
    ensures SymBits(lens, t)[..lens[s]] == SymBits(lens, s)
  {
    assert B[pos..pos + lens[t]][..lens[s]] == B[pos..pos + lens[s]];
  }

  lemma CodeAtLonger(B: Bits, C: Bits, pos: nat, lens: seq<nat>, s: nat)
    requires CodeAt(B, pos, lens, s)
    ensures CodeAt(B + C, pos, lens, s)
  {
    assert (B + C)[pos..pos + lens[s]] == B[pos..pos + lens[s]];
  }

  lemma CodeAtShorter(B: Bits, C: Bits, pos: nat, lens: seq<nat>, s: nat)
    requires CodeAt(B + C, pos, lens, s) && pos + lens[s] <= |B|
    ensures CodeAt(B, pos, lens, s)
  {
    assert (B + C)[pos..pos + lens[s]] == B[pos..pos + lens[s]];
  }

  lemma DecodeLonger(B: Bits, C: Bits, pos: nat, kind: Kind, lens: seq<nat>)
    requires ValidLens(lens) && Acceptable(kind, lens) && !Decode(B, pos, lens).Short?
    ensures Decode(B + C, pos, lens) == Decode(B, pos, lens)
  {
    hide SymBits, NotOver, Complete;
    AcceptableFits(kind, lens);
    if Decode(B, pos, lens).Symbol? {
      var s := Decode(B, pos, lens).s;
      CodeAtLonger(B, C, pos, lens, s);
      DecodeIs(B + C, pos, lens, s);
    } else {
      forall s: nat | HasCode(lens, s)
        ensures !CodeAt(B + C, pos, lens, s)
      {
        if CodeAt(B + C, pos, lens, s) {
          CodeAtShorter(B, C, pos, lens, s);
        }
      }
    }
  }

  lemma NumLonger(B: Bits, C: Bits, pos: nat, n: nat)
    requires pos + n <= |B|
    ensures Num(B + C, pos, n) == Num(B, pos, n)
  {
    assert (B + C)[pos..pos + n] == B[pos..pos + n];
  }

  lemma NumBound(B: Bits, pos: nat, n: nat)
    requires pos + n <= |B|
    ensures Num(B, pos, n) < Pow2(n)
  {
    hide Pow2;
    var b := B[pos..pos + n];
    assert |b| == n && ValOf(b) < Pow2(|b|);
  }

  lemma Powers()
    ensures Pow2(1) == 2 && Pow2(2) == 4 && Pow2(3) == 8 && Pow2(4) == 16 && Pow2(5) == 32 && Pow2(7) == 128
    ensures Pow2(8) == 256 && Pow2(16) == 0x10000
  {
    assert Pow2(4) == 16;
    assert Pow2(8) == 256;
    assert Pow2(12) == 4096;
  }

  // ---------- the tables of extra bits ----------

  lemma LengthSymbols(s: nat)
    requires 257 <= s <= 285
    ensures 16 <= LEXT[s - 257] <= 21 && 3 <= LBASE[s - 257] && LBASE[s - 257] + Pow2(LEXT[s - 257] - 16) <= 259
  {
    Powers();
    assert Pow2(0) == 1;
  }

  lemma DistanceSymbols(s: nat)
    requires s <= 29
    ensures 16 <= DEXT[s] <= 29 && 1 <= DBASE[s] && DBASE[s] + Pow2(DEXT[s] - 16) <= 32769
  {
    Powers();
    assert Pow2(0) == 1 && Pow2(6) == 64 && Pow2(9) == 512 && Pow2(10) == 1024;
    assert Pow2(11) == 2048 && Pow2(12) == 4096 && Pow2(13) == 8192;
  }

  // ---------- good states ----------

  lemma FixedGood()
    ensures GoodCodes(FixedCodes())
  {
    FixedComplete();
  }

  // how many of the fixed lengths below n are l
  function FixedCount(n: nat, l: nat): nat
  {
    if l == 7 then (if n <= 256 then 0 else if n <= 280 then n - 256 else 24)
    else if l == 8 then (if n <= 144 then n else if n <= 280 then 144 else n - 136)
    else if l == 9 then (if n <= 144 then 0 else if n <= 256 then n - 144 else 112)
    else 0
  }

  lemma {:induction false} FixedCountIs(n: nat, l: nat)
    requires n <= 288
    ensures Count(FixedLens()[..n], l) == FixedCount(n, l)
  {
    if n > 0 {
      FixedCountIs(n - 1, l);
      assert FixedLens()[..n][..n - 1] == FixedLens()[..n - 1];
    }
  }

  lemma {:induction false} FivesCount(n: nat, l: nat)
    requires n <= 32
    ensures Count(FixedDists()[..n], l) == if l == 5 then n else 0
  {
    if n > 0 {
      FivesCount(n - 1, l);
      assert FixedDists()[..n][..n - 1] == FixedDists()[..n - 1];
    }
  }

  lemma {:induction false} FixedUsed(l: nat)
    ensures Used(FixedLens(), l) == if l < 7 then 0 else if l == 7 then 24 else if l == 8 then 200 else Pow2(l)
  {
    FixedCountIs(288, l);
    assert FixedLens()[..288] == FixedLens();
    if l > 0 {
      FixedUsed(l - 1);
    }
    if l == 9 {
      assert Pow2(9) == 512;
    }
  }

  lemma {:induction false} FivesUsed(l: nat)
    ensures Used(FixedDists(), l) == if l < 5 then 0 else Pow2(l)
  {
    FivesCount(32, l);
    assert FixedDists()[..32] == FixedDists();
    if l > 0 {
      FivesUsed(l - 1);
    }
    if l == 5 {
      assert Pow2(5) == 32;
    }
  }

  lemma FixedComplete()
    ensures Complete(FixedLens()) && Complete(FixedDists())
  {
    hide Used, Pow2;
    FixedUsed(MAXBITS);
    FivesUsed(MAXBITS);
  }

  // ---------- every step keeps the state good ----------

  lemma LenLensKeeps(B: Bits, a: State, b: State)
    requires GoodState(a) && a.mode.LenLens? && Next(B, a) == Some(b)
    ensures GoodState(b)
  {
    var m := a.mode;
    if |m.sent| < m.ncode {
      NumBound(B, a.pos, 3);
      Powers();
    }
  }

  lemma CodeLensKeeps(B: Bits, a: State, b: State)
    requires GoodState(a) && a.mode.CodeLens? && Next(B, a) == Some(b)
    ensures GoodState(b)
  {
    hide Decode, Acceptable, Num;
    var m := a.mode;
    if |m.lens| < m.nlen + m.ndist {
      var d := DecodeLength(B, a.pos, m.cl);
      if d.s == 16 && m.lens != [] {
        assert m.lens[|m.lens| - 1] <= MAXBITS;
      }
    }
  }

  lemma TableKeeps(B: Bits, a: State, b: State)
    requires GoodState(a) && a.mode.Table? && Next(B, a) == Some(b)
    ensures GoodState(b)
  {
    hide Num;
    NumBound(B, a.pos, 5);
    NumBound(B, a.pos + 5, 5);
    NumBound(B, a.pos + 10, 4);
    Powers();
  }

  lemma LenKeeps(B: Bits, a: State, b: State)
    requires GoodState(a) && a.mode.Len? && Next(B, a) == Some(b)
    ensures GoodState(b)
  {
    hide Decode, GoodCodes, Pow2;
    var d := Decode(B, a.pos, a.mode.c.ll);
    if d.Symbol? && 257 <= d.s <= 285 {
      LengthSymbols(d.s);
    }
  }

  lemma DistKeeps(B: Bits, a: State, b: State)
    requires GoodState(a) && a.mode.Dist? && Next(B, a) == Some(b)
    ensures GoodState(b)
  {
    hide Decode, GoodCodes, Pow2;
    var d := Decode(B, a.pos, a.mode.c.dl);
    if d.Symbol? && d.s <= 29 {
      DistanceSymbols(d.s);
    }
  }

  lemma ExtraKeeps(B: Bits, a: State, b: State)
    requires GoodState(a) && (a.mode.LenExt? || a.mode.DistExt?) && Next(B, a) == Some(b)
    ensures GoodState(b)
  {
    hide GoodCodes, Pow2, Num;
    NumBound(B, a.pos, a.mode.extra);
  }

  lemma StoredKeeps(B: Bits, a: State, b: State)
    requires GoodState(a) && a.mode.Stored? && Next(B, a) == Some(b)
    ensures GoodState(b)
  {
    hide Num;
    NumBound(B, a.pos, 16);
    Powers();
  }

  lemma NextGood(B: Bits, a: State, b: State)
    requires GoodState(a) && Next(B, a) == Some(b)
    ensures GoodState(b)
  {
    match a.mode {
      case LenLens(_, _, _, _) => LenLensKeeps(B, a, b);
      case CodeLens(_, _, _, _) => CodeLensKeeps(B, a, b);
      case Table => TableKeeps(B, a, b);
      case Stored => StoredKeeps(B, a, b);
      case Len(_) => LenKeeps(B, a, b);
      case Dist(_, _) => DistKeeps(B, a, b);
      case LenExt(_, _, _) => ExtraKeeps(B, a, b);
      case DistExt(_, _, _, _) => ExtraKeeps(B, a, b);
      case Type => FixedGood();
      case _ =>
    }
  }

  lemma {:induction false} StepsGood(B: Bits, a: State, n: nat)
    requires GoodState(a) && Steps(B, a, n).Some?
    ensures GoodState(Steps(B, a, n).value)
    decreases n
  {
    hide Next, GoodState;
    if n > 0 {
      var b := Next(B, a).value;
      NextGood(B, a, b);
      StepsGood(B, b, n - 1);
    }
  }

  lemma ReachGood(B: Bits, a: State, b: State)
    requires GoodState(a) && Reach(B, a, b)
    ensures GoodState(b)
  {
    hide Next, GoodState;
    var n: nat :| Steps(B, a, n) == Some(b);
    StepsGood(B, a, n);
  }

  // ---------- more input ----------

  lemma CodeLensLonger(B: Bits, C: Bits, a: State)
    requires GoodState(a) && a.mode.CodeLens? && Next(B, a).Some?
    ensures Next(B + C, a) == Next(B, a)
  {
    hide Decode, Acceptable, Num;
    var m := a.mode;
    if |m.lens| < m.nlen + m.ndist {
      assert ValidLens(m.cl);
      DecodeLonger(B, C, a.pos, CODES, m.cl);
      var d := DecodeLength(B, a.pos, m.cl);
      if d.s >= 16 {
        NumLonger(B, C, a.pos + d.n, RepeatBits(d.s));
      }
    }
  }

  lemma SymbolLonger(B: Bits, C: Bits, a: State)
    requires GoodState(a) && (a.mode.Len? || a.mode.Dist?) && Next(B, a).Some?
    ensures Next(B + C, a) == Next(B, a)
  {
    hide Decode, Acceptable;
    if a.mode.Len? {
      DecodeLonger(B, C, a.pos, LENS, a.mode.c.ll);
    } else {
      DecodeLonger(B, C, a.pos, DISTS, a.mode.c.dl);
    }
  }

  lemma NumbersLonger(B: Bits, C: Bits, a: State)
    requires GoodState(a) && !a.mode.CodeLens? && !a.mode.Len? && !a.mode.Dist? && Next(B, a).Some?
    ensures Next(B + C, a) == Next(B, a)
  {
    hide Num, Acceptable, GoodCodes;
    match a.mode {
      case Type =>
        if !a.last {
          NumLonger(B, C, a.pos + 1, 2);
        }
      case Stored =>
        NumLonger(B, C, a.pos, 16);
        NumLonger(B, C, a.pos + 16, 16);
      case Copying(_) =>
        if a.mode.left > 0 {
          NumLonger(B, C, a.pos, 8);
        }
      case Table =>
        NumLonger(B, C, a.pos, 5);
        NumLonger(B, C, a.pos + 5, 5);
        NumLonger(B, C, a.pos + 10, 4);
      case LenLens(_, _, _, _) =>
        if |a.mode.sent| < a.mode.ncode {
          NumLonger(B, C, a.pos, 3);
        }
      case LenExt(_, _, _) => NumLonger(B, C, a.pos, a.mode.extra);
      case DistExt(_, _, _, _) => NumLonger(B, C, a.pos, a.mode.extra);
      case _ =>
    }
  }

  lemma NextLonger(B: Bits, C: Bits, a: State)
    requires GoodState(a) && Next(B, a).Some?
    ensures Next(B + C, a) == Next(B, a)
  {
    if a.mode.CodeLens? {
      CodeLensLonger(B, C, a);
    } else if a.mode.Len? || a.mode.Dist? {
      SymbolLonger(B, C, a);
    } else {
      NumbersLonger(B, C, a);
    }
  }

  lemma {:induction false} StepsLonger(B: Bits, C: Bits, a: State, n: nat)
    requires GoodState(a) && Steps(B, a, n).Some?
    ensures Steps(B + C, a, n) == Steps(B, a, n)
    decreases n
  {
    hide Next, GoodState;
    if n > 0 {
      var b := Next(B, a).value;
      NextLonger(B, C, a);
      NextGood(B, a, b);
      StepsLonger(B, C, b, n - 1);
    }
  }

  /** What was read from a stream is read from every longer stream as well. */
  lemma ReachLonger(B: Bits, C: Bits, a: State, b: State)
    requires GoodState(a) && Reach(B, a, b)
    ensures Reach(B + C, a, b)
  {
    hide Next, GoodState;
    var n: nat :| Steps(B, a, n) == Some(b);
    StepsLonger(B, C, a, n);
  }
}
