/**
 The constant tables of trees.c (tr_static_init): they are the tables of lengths, distances and fixed codes that inflate
 uses.
 */
module StaticTables {
  import opened Shift
  import opened Bits
  import opened Canonical
  import opened InfTreesSpec
  import opened Format
  import opened FormatFacts
  import opened BlockCode
  import opened Heap
  import opened BitLengths
  import opened DynTree

  const EXTRA_LBITS: seq<nat> := [0, 0, 0, 0, 0, 0, 0, 0, 1, 1, 1, 1, 2, 2, 2, 2, 3, 3, 3, 3, 4, 4, 4, 4, 5, 5, 5, 5, 0]
  const EXTRA_DBITS: seq<nat> := [0, 0, 0, 0, 1, 1, 2, 2, 3, 3, 4, 4, 5, 5, 6, 6, 7, 7, 8, 8, 9, 9, 10, 10, 11, 11,
      12, 12, 13, 13]
  const EXTRA_BLBITS: seq<nat> := [0, 0, 0, 0, 0, 0, 0, 0, 0, 0, 0, 0, 0, 0, 0, 0, 2, 3, 7]

  /** Encoder and decoder have the same numbers of extra bits. */
  lemma ExtraBitsAgree()
    ensures |EXTRA_LBITS| == 29 && forall c :: 0 <= c < 29 ==> EXTRA_LBITS[c] == LengthExtra(c)
    ensures |EXTRA_DBITS| == 30 && forall c :: 0 <= c < 30 ==> EXTRA_DBITS[c] == DistExtra(c)
  {
    forall c | 0 <= c < 29
      ensures EXTRA_LBITS[c] == LengthExtra(c)
    {
    }
    forall c | 0 <= c < 30
      ensures EXTRA_DBITS[c] == DistExtra(c)
    {
    }
  }

  lemma {:induction false} LengthsRise(i: nat, j: nat)
    requires i <= j <= 27
    ensures LBASE[i] <= LBASE[j]
  {
    if i < j {
      LengthsRise(i, j - 1);
      LengthStep(j - 1);
    }
  }

  lemma {:induction false} DistancesRise(i: nat, j: nat)
    requires i <= j <= 29
    ensures DBASE[i] <= DBASE[j]
  {
    if i < j {
      DistancesRise(i, j - 1);
      DistSymbolStep(j - 1);
    }
  }

  /** A length has one code only. */
  lemma LengthCodeIs(lc: nat, c: nat)
    requires lc < 255 && c <= 27 && LBASE[c] <= lc + 3 < LBASE[c] + Pow2(LengthExtra(c))
    ensures LengthCode(lc) == c
  {
    hide Find, Pow2;
    var r := LengthCode(lc);
    LengthStep(c);
    assert LBASE[0] == 3;
    if r < c {
      LengthsRise(r + 1, c);
    } else if c < r {
      LengthsRise(c + 1, r);
    }
  }

  /** The first place of a distance code, and how many it has. */
  function DFirst(c: nat): int
    requires c < 30
  {
    DBASE[c] - 1
  }

  function DSpan(c: nat): (n: nat)
    requires c < 30
  {
    Pow2(EXTRA_DBITS[c])
  }

  lemma DistanceSpan(c: nat)
    requires c < 30
    ensures DSpan(c) == Pow2(DistExtra(c))
  {
    hide Pow2;
    ExtraBitsAgree();
  }

  lemma DistNext(c: nat)
    requires c <= 29
    ensures DFirst(c) + Pow2(DistExtra(c)) == if c == 29 then 32768 else DFirst(c + 1)
  {
    hide Pow2;
    DistSymbolStep(c);
  }

  lemma DistCodeBounds(d: nat)
    requires d < 32768
    ensures var r := DistCode(d); DFirst(r) <= d && (r < 29 ==> d < DFirst(r + 1))
  {
    hide Find;
    assert DBASE[0] == 1;
  }

  lemma FirstsRise(i: nat, j: nat)
    requires i <= j <= 29
    ensures DFirst(i) <= DFirst(j)
  {
    DistancesRise(i, j);
  }

  lemma DistCodeIs(d: nat, c: nat)
    requires c <= 29 && d < 32768 && DFirst(c) <= d < DFirst(c) + Pow2(DistExtra(c))
    ensures DistCode(d) == c
  {
    hide DistCode, DFirst, Pow2, DistExtra;
    var r := DistCode(d);
    DistCodeBounds(d);
    DistNext(c);
    if r < c {
      FirstsRise(r + 1, c);
    } else if c < r {
      FirstsRise(c + 1, r);
    }
  }

  /** d_code: the code of a distance, by its low part or by its bits from the seventh on. */
  function DCode(distCode: seq<nat>, d: nat): nat
    requires |distCode| == 512 && d < 32768
  {
    if d < 256 then distCode[d] else distCode[256 + d / 128]
  }

  ghost predicate LengthTables(lengthCode: seq<nat>, baseLength: seq<nat>)
  {
    && |lengthCode| == 256 && (forall lc :: 0 <= lc < 256 ==> lengthCode[lc] == LengthCode(lc))
    && |baseLength| == 29 && (forall c :: 0 <= c < 28 ==> baseLength[c] + 3 == LBASE[c])
  }

  ghost predicate DistTables(distCode: seq<nat>, baseDist: seq<nat>)
  {
    && |distCode| == 512 && (forall d :: 0 <= d < 32768 ==> DCode(distCode, d) == DistCode(d))
    && |baseDist| == 30 && (forall c :: 0 <= c < 30 ==> baseDist[c] + 1 == DBASE[c])
  }

  /** The first place of a length code in length_code, and how many it has. */
  function LFirst(c: nat): int
    requires c < 29
  {
    LBASE[c] - 3
  }

  function LSpan(c: nat): (n: nat)
    requires c < 29
  {
    Pow2(EXTRA_LBITS[c])
  }

  lemma LengthSpan(c: nat)
    requires c < 29
    ensures LSpan(c) == Pow2(LengthExtra(c))
  {
    hide Pow2;
    ExtraBitsAgree();
  }

  lemma LengthSlot(c: nat, n: nat)
    requires c <= 27 && n < LSpan(c) && 0 <= LFirst(c) && LFirst(c) + n < 255
    ensures LengthCode(LFirst(c) + n) == c
  {
    hide Pow2, LSpan, LengthExtra;
    LengthSpan(c);
    LengthCodeIs(LFirst(c) + n, c);
  }

  /** The codes follow one another, up to place 256. */
  lemma LengthBase(c: nat)
    requires c <= 27
    ensures 0 <= LFirst(c) && LFirst(c) + LSpan(c) == (if c == 27 then 256 else LFirst(c + 1)) <= 256
  {
    hide Pow2, LSpan;
    LengthSpan(c);
    LengthStep(c);
    LengthsRise(0, c);
    if c < 27 {
      LengthsRise(c + 1, 27);
    }
    assert LBASE[0] == 3 && LBASE[27] == 227;
  }

  ghost predicate LengthsTo(codes: seq<nat>, n: int)
  {
    |codes| == 256 && forall lc :: 0 <= lc < n && lc < 255 ==> codes[lc] == LengthCode(lc)
  }

  ghost predicate LBases(base: seq<nat>, n: nat)
  {
    |base| == 29 && n <= 28 && forall c :: 0 <= c < n ==> base[c] + 3 == LBASE[c]
  }

  lemma NoLengths(codes: seq<nat>, base: seq<nat>)
    requires |codes| == 256 && |base| == 29
    ensures LengthsTo(codes, 0) && LBases(base, 0) && LFirst(0) == 0
  {
  }

  lemma LBaseStep(base: seq<nat>, c: nat, v: nat)
    requires LBases(base, c) && c < 28 && v == LFirst(c)
    ensures LBases(base[c := v], c + 1)
  {
  }

  lemma LengthStored(codes: seq<nat>, c: nat, n: nat)
    requires c <= 27 && 0 <= LFirst(c) && LengthsTo(codes, LFirst(c) + n) && n < LSpan(c) && LFirst(c) + n < 256
    ensures LengthsTo(codes[LFirst(c) + n := c], LFirst(c) + n + 1)
  {
    hide LengthCode, LSpan, LFirst;
    if LFirst(c) + n < 255 {
      LengthSlot(c, n);
    }
  }

  /** The places of one length code. */
  method FillLengths(codes: array<nat>, code: nat, length0: nat) returns (length: nat)
    requires codes.Length == 256 && code <= 27 && length0 == LFirst(code) && LengthsTo(codes[..], length0)
    modifies codes
    ensures LengthsTo(codes[..], length) && length == if code == 27 then 256 else LFirst(code + 1)
  {
    hide LengthCode, Pow2, LFirst, LengthsTo;
    LengthBase(code);
    length := length0;
    var n := 0;
    while n < Pow2(EXTRA_LBITS[code])
      invariant n <= LSpan(code) && length == LFirst(code) + n
      invariant LengthsTo(codes[..], length)
    {
      LengthStored(codes[..], code, n);
      SetNat(codes, length, code);
      length := length + 1;
      n := n + 1;
    }
  }

  /** The mapping length -> length code. */
  method InitLengths() returns (lengthCode: seq<nat>, baseLength: seq<nat>)
    ensures LengthTables(lengthCode, baseLength)
  {
    hide LengthCode, LFirst, LengthsTo, LBases, LengthTables;
    var codes := new nat[256](_ => 0);
    var base := new nat[29](_ => 0);
    var length := 0;
    NoLengths(codes[..], base[..]);
    var code := 0;
    while code < 28
      invariant code <= 28 && length == (if code == 28 then 256 else LFirst(code)) && codes.Length == 256
      invariant base.Length == 29
      invariant LBases(base[..], code) && LengthsTo(codes[..], length)
    {
      LBaseStep(base[..], code, length);
      SetNat(base, code, length);
      length := FillLengths(codes, code, length);
      code := code + 1;
    }
    LengthsDone(codes[..], base[..]);
    SetNat(codes, length - 1, code);   // length 258 has a code of its own
    lengthCode, baseLength := codes[..], base[..];
  }

  lemma LengthsDone(codes: seq<nat>, base: seq<nat>)
    requires LengthsTo(codes, 256) && LBases(base, 28)
    ensures |codes| == 256 && LengthTables(codes[255 := 28], base)
  {
    hide LengthCode;
    LastLength();
  }

  lemma LastLength()
    ensures LengthCode(255) == 28
  {
  }

  lemma DistBase(c: nat)
    requires c <= 29
    ensures 0 <= DFirst(c) && DFirst(c) + DSpan(c) == if c == 29 then 32768 else DFirst(c + 1)
    ensures c < 16 ==> DFirst(c) + DSpan(c) <= 256
    ensures c == 15 ==> DFirst(c) + DSpan(c) == 256
  {
    hide Pow2, DSpan;
    DistanceSpan(c);
    DistSymbolStep(c);
    assert DBASE[16] == 257 && DBASE[0] == 1;
    if c < 16 {
      DistancesRise(c + 1, 16);
    }
    DistancesRise(0, c);
  }

  lemma FirstPlaces()
    ensures DFirst(0) == 0 && DFirst(16) == 256
  {
  }

  /** From 256 on a code covers whole multiples of 128 distances. */
  lemma FarBase(c: nat)
    requires 16 <= c <= 29
    ensures EXTRA_DBITS[c] >= 7 && DSpan(c) == 128 * Pow2(EXTRA_DBITS[c] - 7)
    ensures DFirst(c) % 128 == 0
  {
    var e := EXTRA_DBITS[c];
    Powers();
    assert e >= 7;
    ShlPow2(7, e - 7);
    Hundred(e - 7);
  }

  lemma {:induction false} Hundred(n: nat)
    ensures Pow2(n + 7) == 128 * Pow2(n)
  {
    if n == 0 {
      Powers();
    } else {
      Hundred(n - 1);
    }
  }

  lemma DistSlot(c: nat, d: nat)
    requires c <= 29 && d < 32768 && DFirst(c) <= d < DFirst(c) + DSpan(c)
    ensures DistCode(d) == c
  {
    hide Pow2, DSpan, DistExtra;
    DistanceSpan(c);
    DistCodeIs(d, c);
  }

  ghost predicate NearCodes(codes: seq<nat>, n: nat)
  {
    |codes| == 512 && n <= 256 && forall d: nat :: d < n ==> codes[d] == DistCode(d)
  }

  ghost predicate FarCodes(codes: seq<nat>, n: nat)
  {
    |codes| == 512 && n <= 256 && forall d: nat :: 256 <= d < 128 * n ==> codes[256 + d / 128] == DistCode(d)
  }

  ghost predicate Bases(base: seq<nat>, n: nat)
  {
    |base| == 30 && n <= 30 && forall c :: 0 <= c < n ==> base[c] + 1 == DBASE[c]
  }

  lemma NearStep(codes: seq<nat>, n: nat, c: nat)
    requires NearCodes(codes, n) && n < 256 && DistCode(n) == c
    ensures NearCodes(codes[n := c], n + 1)
  {
  }

  lemma FarStep(codes: seq<nat>, q: nat, c: nat, m: nat)
    requires NearCodes(codes, 256) && FarCodes(codes, q) && 2 <= q < 256 && 16 <= c <= 29
    requires EXTRA_DBITS[c] >= 7 && q == DFirst(c) / 128 + m && m < Pow2(EXTRA_DBITS[c] - 7)
    ensures NearCodes(codes[256 + q := c], 256) && FarCodes(codes[256 + q := c], q + 1)
  {
    hide DistCode;
    FarBase(c);
    DistBase(c);
    forall d: nat | 256 <= d < 128 * (q + 1)
      ensures codes[256 + q := c][256 + d / 128] == DistCode(d)
    {
      if d / 128 == q {
        DistSlot(c, d);
      }
    }
  }

  lemma DistDone(codes: seq<nat>, base: seq<nat>)
    requires NearCodes(codes, 256) && FarCodes(codes, 256) && Bases(base, 30)
    ensures DistTables(codes, base)
  {
    hide DistCode;
    forall d | 0 <= d < 32768
      ensures DCode(codes, d) == DistCode(d)
    {
    }
  }

  method SetNat(a: array<nat>, i: nat, v: nat)
    requires i < a.Length
    modifies a
    ensures a[..] == old(a[..])[i := v]
  {
    a[i] := v;
  }

  /** The mapping distance -> distance code. */
  method InitDistances() returns (distCode: seq<nat>, baseDist: seq<nat>)
    ensures DistTables(distCode, baseDist)
  {
    hide DistCode, Pow2, DistExtra, NearCodes, FarCodes, Bases, DistTables, DFirst;
    var codes := new nat[512](_ => 0);
    var base := new nat[30](_ => 0);
    var dist := 0;
    StartCodes(codes[..], base[..]);
    var code := 0;
    FirstPlaces();
    while code < 16
      invariant code <= 16 && dist == DFirst(code)
      invariant codes.Length == 512 && base.Length == 30
      invariant NearCodes(codes[..], dist) && Bases(base[..], code)
    {
      DistBase(code);
      BaseStep(base[..], code, dist);
      SetNat(base, code, dist);
      var n := 0;
      while n < Pow2(EXTRA_DBITS[code])
        invariant n <= DSpan(code) && dist == DFirst(code) + n
        invariant NearCodes(codes[..], dist) && Bases(base[..], code + 1)
      {
        DistSlot(code, dist);
        NearStep(codes[..], dist, code);
        SetNat(codes, dist, code);
        dist := dist + 1;
        n := n + 1;
      }
      code := code + 1;
    }
    dist := dist / 128;   // from now on, all distances are divided by 128
    NoneFar(codes[..]);
    while code < 30
      invariant 16 <= code <= 30 && 128 * dist == if code == 30 then 32768 else DFirst(code)
      invariant codes.Length == 512 && base.Length == 30 && 2 <= dist
      invariant NearCodes(codes[..], 256) && FarCodes(codes[..], dist) && Bases(base[..], code)
    {
      DistBase(code);
      FarBase(code);
      BaseStep(base[..], code, 128 * dist);
      SetNat(base, code, 128 * dist);
      var n := 0;
      ghost var first := dist;
      FarEnd(code, first);
      while n < Pow2(EXTRA_DBITS[code] - 7)
        invariant n <= Pow2(EXTRA_DBITS[code] - 7) && dist == first + n
        invariant NearCodes(codes[..], 256) && FarCodes(codes[..], dist) && Bases(base[..], code + 1)
      {
        FarStep(codes[..], dist, code, n);
        SetNat(codes, 256 + dist, code);
        dist := dist + 1;
        n := n + 1;
      }
      code := code + 1;
    }
    distCode, baseDist := codes[..], base[..];
    DistDone(distCode, baseDist);
  }

  lemma FarEnd(c: nat, first: nat)
    requires 16 <= c <= 29 && 128 * first == DFirst(c) && EXTRA_DBITS[c] >= 7
    ensures first + Pow2(EXTRA_DBITS[c] - 7) <= 256
    ensures 128 * (first + Pow2(EXTRA_DBITS[c] - 7)) == if c == 29 then 32768 else DFirst(c + 1)
  {
    hide Pow2;
    FarBase(c);
    DistBase(c);
    if c < 29 {
      DistancesRise(c + 1, 29);
      assert DBASE[29] == 24577;
    }
  }

  lemma StartCodes(codes: seq<nat>, base: seq<nat>)
    requires |codes| == 512 && |base| == 30
    ensures NearCodes(codes, 0) && Bases(base, 0)
  {
  }

  lemma NoneFar(codes: seq<nat>)
    requires |codes| == 512
    ensures FarCodes(codes, 2)
  {
  }

  lemma BaseStep(base: seq<nat>, c: nat, v: nat)
    requires Bases(base, c) && c < 30 && v == DFirst(c)
    ensures |base| == 30 && Bases(base[c := v], c + 1)
  {
  }

  // ---------- the fixed codes ----------

  function FiveBits(): (r: seq<nat>)
    ensures |r| == 30
  {
    seq(30, _ => 5)
  }

  /** A code of five bits for every distance code: the code is the number. */
  lemma FiveCode(n: nat)
    requires n < 32
    ensures SymBits(FixedDists(), n) == BitsOf(Rev(n, 5), 5)
    ensures Code(FixedDists(), n) == n
  {
    hide CodeBits, Rev, BitsOf, Pow2, Count;
    FivesCount(n, 5);
    FivesUsed(4);
    BitsOfRev(n, 5);
  }

  ghost predicate FixedTrees(ltree: seq<CtData>, dtree: seq<CtData>)
  {
    && |ltree| == 288 && Coded(ltree, FixedLens())
    && |dtree| == 30 && forall n: nat :: n < 30 ==> dtree[n] == CtData(Rev(n, 5), 5)
  }

  /** The lengths of the static literal tree, counted. */
  method FixedLengths(tree: array<CtData>) returns (blCount: array<nat>)
    requires tree.Length == 288
    modifies tree
    ensures fresh(blCount) && blCount.Length == 16
    ensures forall n :: 0 <= n < 288 ==> tree[n].dl == FixedLens()[n]
    ensures forall l :: 0 <= l < 16 ==>
             blCount[l] == if l == 7 then 24 else if l == 8 then 152 else if l == 9 then 112 else 0
  {
    blCount := new nat[16](_ => 0);
    var n := 0;
    while n <= 143
      invariant n <= 144 && (forall i :: 0 <= i < n ==> tree[i].dl == 8) && blCount[8] == n
      invariant forall l :: 0 <= l < 16 && l != 8 ==> blCount[l] == 0
    {
      tree[n] := tree[n].(dl := 8);
      n := n + 1;
      blCount[8] := blCount[8] + 1;
    }
    while n <= 255
      invariant 144 <= n <= 256 && (forall i :: 0 <= i < n ==> tree[i].dl == if i < 144 then 8 else 9)
      invariant blCount[9] == n - 144 && blCount[8] == 144
      invariant forall l :: 0 <= l < 16 && l != 8 && l != 9 ==> blCount[l] == 0
    {
      tree[n] := tree[n].(dl := 9);
      n := n + 1;
      blCount[9] := blCount[9] + 1;
    }
    while n <= 279
      invariant 256 <= n <= 280
      invariant (forall i :: 0 <= i < n ==> tree[i].dl == if i < 144 then 8 else if i < 256 then 9 else 7)
      invariant blCount[7] == n - 256 && blCount[8] == 144 && blCount[9] == 112
      invariant forall l :: 0 <= l < 16 && l != 7 && l != 8 && l != 9 ==> blCount[l] == 0
    {
      tree[n] := tree[n].(dl := 7);
      n := n + 1;
      blCount[7] := blCount[7] + 1;
    }
    while n <= 287
      invariant 280 <= n <= 288
      invariant forall i :: 0 <= i < n ==>
               tree[i].dl == if i < 144 then 8 else if i < 256 then 9 else if i < 280 then 7 else 8
      invariant blCount[7] == 24 && blCount[8] == n - 136 && blCount[9] == 112
      invariant forall l :: 0 <= l < 16 && l != 7 && l != 8 && l != 9 ==> blCount[l] == 0
    {
      tree[n] := tree[n].(dl := 8);
      n := n + 1;
      blCount[8] := blCount[8] + 1;
    }
  }

  lemma FixedCounts(bl: seq<nat>)
    requires |bl| == 16
    requires forall l :: 0 <= l < 16 ==>
             bl[l] == if l == 7 then 24 else if l == 8 then 152 else if l == 9 then 112 else 0
    ensures BlCounts(bl, FixedLens()) && NotOver(FixedLens()) && ValidLens(FixedLens())
  {
    hide Used, Count;
    FixedComplete();
    forall l | 1 <= l <= MAX_BITS
      ensures bl[l] == Count(FixedLens(), l)
    {
      FixedCountIs(288, l);
      assert FixedLens()[..288] == FixedLens();
    }
  }

  lemma FixedCoded(t0: seq<CtData>, t: seq<CtData>)
    requires |t0| == 288 && CodedUpTo(t0, t, FixedLens(), 288)
    ensures |t| == 288 && Coded(t, FixedLens())
  {
    hide Reversed;
    var lens := FixedLens();
    forall s: nat | s < 288
      ensures t[s].dl == lens[s] && t[s].fc == Reversed(lens, s)
    {
      assert lens[s] > 0 && t0[s].dl == lens[s];
    }
  }

  /** Construct the codes of the static trees. */
  method InitTrees() returns (ltree: seq<CtData>, dtree: seq<CtData>)
    ensures FixedTrees(ltree, dtree)
  {
    hide Coded, CodedUpTo, FixedLens, NotOver, ValidLens, BlCounts, Rev, Used;
    var t := new CtData[288](_ => CtData(0, 0));
    var bl := FixedLengths(t);
    ghost var lens := FixedLens();
    FixedCounts(bl[..]);
    assert Lens(t[..], 288) == lens;
    ghost var t0 := t[..];
    GenCodes(t, 287, bl, lens);
    FixedCoded(t0, t[..]);
    ltree := t[..];
    var d := new CtData[30](_ => CtData(0, 0));
    for n := 0 to 30
      invariant d.Length == 30 && forall i: nat :: i < n ==> d[i] == CtData(Rev(i, 5), 5)
    {
      var code := BiReverse(n, 5);
      d[n] := CtData(code, 5);
    }
    dtree := d[..];
  }

  /** The constant tables. */
  datatype Tables = Tables(lengthCode: seq<nat>, baseLength: seq<nat>, distCode: seq<nat>, baseDist: seq<nat>,
                           ltree: seq<CtData>, dtree: seq<CtData>)

  ghost predicate GoodTables(t: Tables)
  {
    LengthTables(t.lengthCode, t.baseLength) && DistTables(t.distCode, t.baseDist) && FixedTrees(t.ltree, t.dtree)
  }

  method TrStaticInit() returns (t: Tables)
    ensures GoodTables(t)
  {
    hide LengthTables, DistTables, FixedTrees;
    var lengthCode, baseLength := InitLengths();
    var distCode, baseDist := InitDistances();
    var ltree, dtree := InitTrees();
    t := Tables(lengthCode, baseLength, distCode, baseDist, ltree, dtree);
  }
}
