/** The state of inflate() (inflate.c) and what it says in terms of the machine of module Format. */
module InflateStates {
  import opened Shift
  import opened Bits
  import opened Canonical
  import opened InfTreesSpec
  import opened InfTrees
  import opened Format
  import opened FormatFacts
  import opened BlockCode
  import opened BlockRoundTrip
  import opened BitReading
  import opened Lookup
  import opened Windows

  datatype IMode =
    | HEAD | TYPE | STORED | COPY | TABLE | LENLENS | CODELENS | LEN | LENEXT | DIST | DISTEXT | MATCH | LIT
    | CHECK | DONE | BAD

  const LENS_SIZE := 320

  /** The first n lengths of the code length code, in the order of sending. */
  function InOrder(lens: seq<nat>, n: nat): (r: seq<nat>)
    requires n <= 19 <= |lens|
    ensures |r| == n
  {
    seq(n, i requires 0 <= i < n => lens[ORDER[i]])
  }

  /** Between the length and the distance of a match. */
  predicate InPair(m: IMode)
  {
    m.LENEXT? || m.DIST? || m.DISTEXT?
  }

  /** How far the loop of inflate() can get without consuming input or producing output. */
  function Rank(m: IMode): nat
  {
    match m
    case HEAD => 10
    case COPY => 9
    case LENLENS => 8
    case CODELENS => 7
    case LENEXT => 6
    case DIST => 5
    case DISTEXT => 5
    case MATCH => 4
    case LIT => 4
    case TYPE => 3
    case STORED => 3
    case TABLE => 3
    case LEN => 2
    case CHECK => 1
    case DONE => 0
    case BAD => 0
  }

  /** The codes that a mode decodes with. */
  function CodesOf(m: Mode): Codes
  {
    match m
    case Len(c) => c
    case LenExt(c, _, _) => c
    case Dist(c, _) => c
    case DistExt(c, _, _, _) => c
    case Match(c, _, _) => c
    case Lit(c, _) => c
    case _ => Codes([], [])
  }

  /** The decoding tables that the mode will use. */
  ghost predicate TablesFor(m: Mode, lencode: seq<Entry>, lenbits: nat, distcode: seq<Entry>, distbits: nat)
  {
    && (m.CodeLens? ==> |m.cl| == 19 && IsTable(lencode, lenbits, CODES, m.cl) && NoLonger(m.cl, lenbits))
    && (m.Len? || m.LenExt? || m.Dist? || m.DistExt? || m.Match? || m.Lit? ==>
          && |CodesOf(m).ll| <= 288 && |CodesOf(m).dl| <= 32
          && IsTable(lencode, lenbits, LENS, CodesOf(m).ll) && IsTable(distcode, distbits, DISTS, CodesOf(m).dl))
  }

  /** Fewer than 8 bits are held unread, or the last byte was needed to go on. */
  ghost predicate Tight(given: seq<byte>, a: State)
  {
    8 * |given| - a.pos < 8 || (given != [] && !Final(a) && Next(BytesBits(given[..|given| - 1]), a).None?)
  }

  /** Nothing was read for the step from a, or the last byte read was needed for it. */
  ghost predicate Needed(given0: seq<byte>, given: seq<byte>, a: State)
  {
    given == given0 || (given != [] && Next(BytesBits(given[..|given| - 1]), a).None?)
  }

  /** The scalar fields, the lengths and the tables of struct inflate_state. */
  datatype Ctl = Ctl(mode: IMode, last: bool, length: nat, offset: nat, extra: nat, nlen: nat, ndist: nat, ncode: nat,
      have: nat,
                     lens: seq<nat>, lencode: seq<Entry>, lenbits: nat, distcode: seq<Entry>, distbits: nat)

  /** The fields say what the state of the machine says. */
  ghost predicate Matches(c: Ctl, a: State)
  {
    && c.have <= |c.lens| && |c.lens| == LENS_SIZE && ValidLens(c.lens) && a.last == c.last
    && TablesFor(a.mode, c.lencode, c.lenbits, c.distcode, c.distbits)
    && (var m := a.mode;
        match c.mode
        case HEAD => m.Type?
        case TYPE => m.Type?
        case STORED => m.Stored?
        case COPY => m == Copying(c.length)
        case TABLE => m.Table?
        case LENLENS => c.have <= 19 && m == LenLens(c.nlen, c.ndist, c.ncode, InOrder(c.lens, c.have))
        case CODELENS => m.CodeLens? && m.nlen == c.nlen && m.ndist == c.ndist && m.lens == c.lens[..c.have]
        case LEN => m.Len?
        case LENEXT => m.LenExt? && m.base == c.length && m.extra == c.extra
        case DIST => m.Dist? && m.length == c.length
        case DISTEXT => m.DistExt? && m.length == c.length && m.base == c.offset && m.extra == c.extra
        case MATCH => m.Match? && m.length == c.length && m.offset == c.offset
        case LIT => m.Lit? && m.b == c.length
        case CHECK => m.Done?
        case DONE => m.Done?
        case BAD => m.Bad?)
  }

  // ---------- a step needs no more bits than it consumes ----------

  lemma NumShorter(B: Bits, n: nat, pos: nat, k: nat)
    requires pos + k <= n <= |B|
    ensures Num(B[..n], pos, k) == Num(B, pos, k)
  {
    assert B[..n][pos..pos + k] == B[pos..pos + k];
  }

  lemma DecodeShorter(B: Bits, n: nat, pos: nat, kind: Kind, lens: seq<nat>)
    requires n <= |B| && ValidLens(lens) && Acceptable(kind, lens)
    requires Decode(B, pos, lens).Symbol? ==> pos + Decode(B, pos, lens).n <= n
    requires Decode(B, pos, lens).NoSymbol? ==> pos < n
    ensures !Decode(B, pos, lens).Short? ==> Decode(B[..n], pos, lens) == Decode(B, pos, lens)
  {
    hide SymBits, NotOver, Complete;
    AcceptableFits(kind, lens);
    assert B == B[..n] + B[n..];
    var d := Decode(B, pos, lens);
    if d.Symbol? {
      assert CodeAt(B, pos, lens, d.s);
      CodeAtShorter(B[..n], B[n..], pos, lens, d.s);
      DecodeIs(B[..n], pos, lens, d.s);
    } else if d.NoSymbol? {
      forall s: nat | HasCode(lens, s)
        ensures !CodeAt(B[..n], pos, lens, s)
      {
        if CodeAt(B[..n], pos, lens, s) {
          CodeAtLonger(B[..n], B[n..], pos, lens, s);
        }
      }
    }
  }

  lemma CodeLensShorter(B: Bits, n: nat, a: State, b: State)
    requires GoodState(a) && a.mode.CodeLens? && Next(B, a) == Some(b) && !b.mode.Bad? && b.pos <= n <= |B|
    ensures Next(B[..n], a) == Some(b)
  {
    hide Decode, Acceptable, Num;
    var m := a.mode;
    if |m.lens| < m.nlen + m.ndist {
      assert ValidLens(m.cl);
      DecodeShorter(B, n, a.pos, CODES, m.cl);
      var d := DecodeLength(B, a.pos, m.cl);
      if d.s >= 16 {
        NumShorter(B, n, a.pos + d.n, RepeatBits(d.s));
      }
    }
  }

  lemma SymbolShorter(B: Bits, n: nat, a: State, b: State)
    requires GoodState(a) && (a.mode.Len? || a.mode.Dist?) && Next(B, a) == Some(b) && b.pos <= n <= |B|
    ensures Next(B[..n], a) == Some(b)
  {
    hide Decode, Acceptable;
    if a.mode.Len? {
      DecodeShorter(B, n, a.pos, LENS, a.mode.c.ll);
    } else {
      DecodeShorter(B, n, a.pos, DISTS, a.mode.c.dl);
    }
  }

  lemma NumbersShorter(B: Bits, n: nat, a: State, b: State)
    requires GoodState(a) && !a.mode.CodeLens? && !a.mode.Len? && !a.mode.Dist? && Next(B, a) == Some(b)
    requires !b.mode.Bad? && b.pos <= n <= |B|
    ensures Next(B[..n], a) == Some(b)
  {
    hide Num, Acceptable, GoodCodes;
    match a.mode {
      case Type =>
        if !a.last {
          NumShorter(B, n, a.pos + 1, 2);
        }
      case Stored =>
        NumShorter(B, n, a.pos, 16);
        NumShorter(B, n, a.pos + 16, 16);
      case Copying(_) =>
        if a.mode.left > 0 {
          NumShorter(B, n, a.pos, 8);
        }
      case Table =>
        NumShorter(B, n, a.pos, 5);
        NumShorter(B, n, a.pos + 5, 5);
        NumShorter(B, n, a.pos + 10, 4);
      case LenLens(_, _, _, _) =>
        if |a.mode.sent| < a.mode.ncode {
          NumShorter(B, n, a.pos, 3);
        }
      case LenExt(_, _, _) => NumShorter(B, n, a.pos, a.mode.extra);
      case DistExt(_, _, _, _) => NumShorter(B, n, a.pos, a.mode.extra);
      case _ =>
    }
  }

  lemma NextShorter(B: Bits, n: nat, a: State, b: State)
    requires GoodState(a) && Next(B, a) == Some(b) && !b.mode.Bad? && b.pos <= n <= |B|
    ensures Next(B[..n], a) == Some(b)
  {
    if a.mode.CodeLens? {
      CodeLensShorter(B, n, a, b);
    } else if a.mode.Len? || a.mode.Dist? {
      SymbolShorter(B, n, a, b);
    } else {
      NumbersShorter(B, n, a, b);
    }
  }

  lemma LessGiven(given: seq<byte>)
    requires given != []
    ensures BytesBits(given[..|given| - 1]) == BytesBits(given)[..8 * |given| - 8]
  {
  }

  lemma NotWithout(B: Bits, n: nat, a: State, b: State)
    requires GoodState(a) && n <= |B| && Next(B[..n], a).None? && Next(B, a) == Some(b)
    ensures !b.mode.Bad? ==> n < b.pos
  {
    hide Next, GoodState;
    if !b.mode.Bad? && b.pos <= n {
      NextShorter(B, n, a, b);
    }
  }

  /** After a step fewer than 8 bits are held. */
  lemma StaysTight(given0: seq<byte>, given: seq<byte>, a: State, b: State)
    requires GoodState(a) && Tight(given0, a) && Needed(given0, given, a) && Next(BytesBits(given), a) == Some(b)
    ensures !b.mode.Bad? ==> 8 * |given| - b.pos < 8
  {
    hide Next, GoodState;
    OutStep(BytesBits(given), a, b);
    if 8 * |given| - a.pos >= 8 {
      LessGiven(given);
      NotWithout(BytesBits(given), 8 * |given| - 8, a, b);
    } else {
      assert 8 * |given| - b.pos < 8;
    }
  }

  /** The bits that the next step needs at once, where that is a fixed number. */
  function NeedOf(a: State): nat
  {
    match a.mode
    case Type => if a.last then 0 else 3
    case Stored => 32
    case Table => 14
    case LenLens(_, _, ncode, sent) => if |sent| < ncode then 3 else 0
    case LenExt(_, _, extra) => extra
    case DistExt(_, _, _, extra) => extra
    case _ => 0
  }

  lemma ShortNeed(B: Bits, a: State)
    requires NeedOf(a) > 0 && |B| < a.pos + NeedOf(a)
    ensures Next(B, a).None?
  {
  }

  lemma NeededBits(given0: seq<byte>, given: seq<byte>, a: State)
    requires given == given0 || (NeedOf(a) > 0 && 8 * |given| - a.pos < NeedOf(a) + 8)
    requires given0 <= given
    ensures Needed(given0, given, a)
  {
    hide Next;
    if given != given0 {
      LessGiven(given);
      ShortNeed(BytesBits(given[..|given| - 1]), a);
    }
  }

  /** The bytes read while waiting were all needed. */
  lemma TightStays(given0: seq<byte>, given: seq<byte>, a: State)
    requires Tight(given0, a) && Needed(given0, given, a) && !Final(a)
    ensures Tight(given, a)
  {
  }

  lemma NothingNeeded(given: seq<byte>, a: State)
    ensures Needed(given, given, a)
  {
  }

  /** A step of the machine keeps the state good and the accumulator small. */
  lemma StepDone(given0: seq<byte>, given: seq<byte>, a: State, b: State)
    requires GoodState(a) && Tight(given0, a) && Needed(given0, given, a) && Next(BytesBits(given), a) == Some(b)
    ensures GoodState(b) && Reach(BytesBits(given), a, b)
    ensures !b.mode.Bad? ==> 8 * |given| - b.pos < 8 && Tight(given, b)
  {
    hide Next, GoodState;
    NextGood(BytesBits(given), a, b);
    ReachNext(BytesBits(given), a, b);
    StaysTight(given0, given, a, b);
  }

  // ---------- the steps, one by one ----------

  /** The machine goes from a to b over the stream B, and the fields st then say what b says. */
  ghost predicate Goes(B: Bits, a: State, b: State, st: Ctl)
  {
    Next(B, a) == Some(b) && Matches(st, b) && b.out == a.out
  }

  lemma TypeGoes(B: Bits, a: State, st: Ctl, fixed: Ctl) returns (b: State)
    requires a.mode.Type? && !a.last && a.pos + 3 <= |B| && Matches(st, a)
    requires TablesFor(Len(FixedCodes()), fixed.lencode, fixed.lenbits, fixed.distcode, fixed.distbits)
    requires fixed == st.(lencode := fixed.lencode, lenbits := fixed.lenbits, distcode := fixed.distcode,
             distbits := fixed.distbits)
    ensures var k, last := Num(B, a.pos + 1, 2), Num(B, a.pos, 1) == 1;
            && b == a.(last := last, pos := if k == 0 then Align(a.pos + 3) else a.pos + 3,
                       mode := if k == 0 then Stored else if k == 1 then Len(FixedCodes()) else if k == 2
                           then Mode.Table else Bad)
            && Goes(B, a, b, if k == 0 then st.(last := last, mode := STORED) else if k == 1
                then fixed.(last := last, mode := LEN)
                             else st.(last := last, mode := if k == 2 then TABLE else BAD))
  {
    hide IsTable, FixedCodes, ValidLens, Align;
    TypeNext(B, a);
    b := Next(B, a).value;
  }

  lemma TypeNext(B: Bits, a: State)
    requires a.mode.Type? && !a.last && a.pos + 3 <= |B|
    ensures var k := Num(B, a.pos + 1, 2);
            Next(B, a) == Some(a.(last := Num(B, a.pos, 1) == 1, pos := if k == 0 then Align(a.pos + 3) else a.pos + 3,
                                  mode := if k == 0 then Stored else if k == 1 then Len(FixedCodes()) else if k == 2
                                      then Mode.Table else Bad))
  {
    var b := B[a.pos..a.pos + 1];
    assert b[1..] == [];
    assert ValOf(b) == Bit(b[0]) + 2 * ValOf(b[1..]);
  }

  lemma LastGoes(B: Bits, a: State, st: Ctl) returns (b: State)
    requires a.mode.Type? && a.last && Matches(st, a)
    ensures b == a.(mode := Done, pos := Align(a.pos)) && Goes(B, a, b, st.(mode := CHECK))
  {
    b := a.(mode := Done, pos := Align(a.pos));
  }

  lemma StoredGoes(B: Bits, a: State, st: Ctl) returns (b: State)
    requires a.mode.Stored? && a.pos + 32 <= |B| && Matches(st, a)
    ensures var n, c := Num(B, a.pos, 16), Num(B, a.pos + 16, 16);
            && b == (if n + c != 0xffff then a.(mode := Bad) else a.(mode := Copying(n), pos := a.pos + 32))
            && Goes(B, a, b, if n + c != 0xffff then st.(mode := BAD) else st.(length := n, mode := COPY))
  {
    hide Num, ValidLens;
    b := Next(B, a).value;
  }

  lemma TableGoes(B: Bits, a: State, st: Ctl) returns (b: State)
    requires a.mode.Table? && a.pos + 14 <= |B| && Matches(st, a)
    ensures var n, d, c := Num(B, a.pos, 5) + 257, Num(B, a.pos + 5, 5) + 1, Num(B, a.pos + 10, 4) + 4;
            && b == a.(pos := a.pos + 14, mode := if n > 286 || d > 30 then Bad else LenLens(n, d, c, []))
            && Goes(B, a, b, if n > 286 || d > 30 then st.(nlen := n, ndist := d, ncode := c, mode := BAD)
                             else st.(nlen := n, ndist := d, ncode := c, have := 0, mode := LENLENS))
  {
    hide Num, ValidLens;
    b := Next(B, a).value;
    assert InOrder(st.lens, 0) == [];
  }

  lemma OrderPlaces(i: nat, j: nat)
    requires i < 19 && j < 19 && ORDER[i] == ORDER[j]
    ensures i == j
  {
    OrderAndRank(i);
    OrderAndRank(j);
  }

  lemma OneMoreInOrder(lens: seq<nat>, n: nat, v: nat)
    requires n < 19 <= |lens| && v <= 15 && ValidLens(lens)
    ensures ORDER[n] < 19 && ValidLens(lens[ORDER[n] := v])
    ensures InOrder(lens[ORDER[n] := v], n + 1) == InOrder(lens, n) + [v]
  {
    OrderAndRank(n);
    var l1 := lens[ORDER[n] := v];
    forall i | 0 <= i < n
      ensures l1[ORDER[i]] == lens[ORDER[i]]
    {
      OrderAndRank(i);
      if ORDER[i] == ORDER[n] {
        OrderPlaces(i, n);
      }
    }
    forall i | 0 <= i < |InOrder(lens, n) + [v]|
      ensures InOrder(l1, n + 1)[i] == (InOrder(lens, n) + [v])[i]
    {
    }
  }

  /** One more length of the code length code. */
  lemma LenLensGoes(B: Bits, a: State, st: Ctl) returns (b: State)
    requires GoodState(a) && a.mode.LenLens? && st.mode.LENLENS? && st.have < st.ncode && a.pos + 3 <= |B|
    requires Matches(st, a)
    ensures st.have < 19 && ORDER[st.have] < 19 <= |st.lens|
    ensures var v := Num(B, a.pos, 3);
            && b == a.(pos := a.pos + 3, mode := a.mode.(sent := a.mode.sent + [v]))
            && Goes(B, a, b, st.(lens := st.lens[ORDER[st.have] := v], have := st.have + 1))
  {
    hide Num, ValidLens;
    var v := Num(B, a.pos, 3);
    NumBound(B, a.pos, 3);
    Powers();
    OneMoreInOrder(st.lens, st.have, v);
    b := Next(B, a).value;
  }

  /** The code length code is all there. */
  ghost predicate Filled(lens: seq<nat>, sent: seq<nat>)
  {
    19 <= |lens| && |sent| <= 19 && forall i :: 0 <= i < 19 ==> lens[ORDER[i]] == if i < |sent| then sent[i] else 0
  }

  lemma FilledIsCode(lens: seq<nat>, sent: seq<nat>)
    requires Filled(lens, sent)
    ensures lens[..19] == CodeLengthCode(sent)
  {
    forall i | 0 <= i < 19
      ensures lens[i] == CodeLengthCode(sent)[i]
    {
      OrderAndRank(i);
      assert lens[ORDER[RANK[i]]] == lens[i];
    }
  }

  /** The rest of the code length code is 0. */
  method FillZeros(lens0: seq<nat>, have0: nat) returns (lens: seq<nat>)
    requires have0 <= 19 <= |lens0| && ValidLens(lens0)
    ensures |lens| == |lens0| && ValidLens(lens) && Filled(lens, InOrder(lens0, have0))
  {
    hide ValidLens;
    var have := have0;
    lens := lens0;
    while have < 19
      invariant have0 <= have <= 19 && |lens| == |lens0| && ValidLens(lens)
      invariant InOrder(lens, have) == InOrder(lens0, have0) + Repeat(0, have - have0)
    {
      OneMoreInOrder(lens, have, 0);
      lens := lens[ORDER[have] := 0];
      have := have + 1;
      assert Repeat(0, have - have0) == Repeat(0, have - 1 - have0) + [0];
    }
    FilledAll(lens, InOrder(lens0, have0));
  }

  lemma FilledAll(lens: seq<nat>, sent: seq<nat>)
    requires |lens| >= 19 >= |sent| && InOrder(lens, 19) == sent + Repeat(0, 19 - |sent|)
    ensures Filled(lens, sent)
  {
    forall i | 0 <= i < 19
      ensures lens[ORDER[i]] == if i < |sent| then sent[i] else 0
    {
      assert InOrder(lens, 19)[i] == lens[ORDER[i]];
    }
  }

  /** The table of the code length code. */
  lemma CodeBuilt(B: Bits, a: State, st: Ctl, lens: seq<nat>, lencode: seq<Entry>, lenbits: nat, ok: bool)
    returns (b: State)
    requires GoodState(a) && a.mode.LenLens? && st.mode.LENLENS? && st.have == st.ncode && Matches(st, a)
    requires |lens| == |st.lens| && ValidLens(lens) && Filled(lens, InOrder(st.lens, st.have))
    requires ok <==> Acceptable(CODES, lens[..19])
    requires ok ==> IsTable(lencode, lenbits, CODES, lens[..19]) && NoLonger(lens[..19], lenbits)
    ensures b == a.(mode := if ok then CodeLens(st.nlen, st.ndist, lens[..19], []) else Bad)
    ensures Goes(B, a, b, if ok then st.(lens := lens, have := 0, lencode := lencode, lenbits := lenbits,
             mode := CODELENS)
                          else st.(lens := lens, have := 19, lencode := lencode, lenbits := lenbits, mode := BAD))
  {
    hide ValidLens, Acceptable, IsTable, NoLonger;
    FilledIsCode(lens, InOrder(st.lens, st.have));
    b := Next(B, a).value;
  }

  lemma SmallCode(a: State, st: Ctl, lens: seq<nat>)
    requires GoodState(a) && a.mode.LenLens? && st.mode.LENLENS? && Matches(st, a) && |lens| >= 19
    requires Filled(lens, InOrder(st.lens, st.have))
    ensures NoLonger(lens[..19], 7) && st.ncode <= 19 && st.have <= st.ncode
  {
    forall i | 0 <= i < 19
      ensures lens[i] <= 7
    {
      OrderAndRank(i);
      assert lens[ORDER[RANK[i]]] == lens[i];
      if RANK[i] < st.have {
        assert a.mode.sent[RANK[i]] < 8;
      }
    }
  }

  // ---------- the transmitted code lengths ----------

  /** The bytes read for a symbol of the code length code and its extra bits were all needed. */
  lemma LengthNeeded(given0: seq<byte>, given1: seq<byte>, given: seq<byte>, a: State, s: nat, n: nat, k: nat)
    requires GoodState(a) && a.mode.CodeLens? && |a.mode.lens| < a.mode.nlen + a.mode.ndist
    requires given0 <= given1 <= given && JustEnough(given0, given1, a.pos, a.mode.cl)
    requires DecodeLength(BytesBits(given1), a.pos, a.mode.cl) == Symbol(s, n)
    requires if s < 16 then given == given1 else k == RepeatBits(s)
    requires given == given1 || 8 * |given| - a.pos < n + k + 8
    ensures Needed(given0, given, a)
  {
    hide Decode, Acceptable, GoodCodes, Next, DecodeLength;
    if given != given1 {
      LessGiven(given);
      var less := given[..|given| - 1];
      assert given1 <= less;
      var more := less[|given1|..];
      assert less == given1 + more;
      BytesBitsAppend(given1, more);
      DecodeMore(given1, more, a);
      LengthShort(BytesBits(less), a);
    } else {
      JustIsNeeded(given0, given, a);
    }
  }

  lemma DecodeMore(given1: seq<byte>, more: seq<byte>, a: State)
    requires GoodState(a) && a.mode.CodeLens? && DecodeLength(BytesBits(given1), a.pos, a.mode.cl).Symbol?
    ensures DecodeLength(BytesBits(given1 + more), a.pos, a.mode.cl)
             == DecodeLength(BytesBits(given1), a.pos, a.mode.cl)
  {
    hide Decode, Acceptable, BytesBits;
    BytesBitsAppend(given1, more);
    assert ValidLens(a.mode.cl);
    DecodeLonger(BytesBits(given1), BytesBits(more), a.pos, CODES, a.mode.cl);
  }

  /** Without enough bits for the symbol and its extra bits there is no step. */
  lemma LengthShort(B: Bits, a: State)
    requires a.mode.CodeLens? && |a.mode.lens| < a.mode.nlen + a.mode.ndist
    requires var d := DecodeLength(B, a.pos, a.mode.cl);
             d.Short? || (d.Symbol? && d.s >= 16 && |B| < a.pos + d.n + RepeatBits(d.s))
    ensures Next(B, a).None?
  {
    hide Decode;
  }

  method RepeatLen(lens0: seq<nat>, have0: nat, len: nat, copy0: nat) returns (lens: seq<nat>, have: nat)
    requires have0 + copy0 <= |lens0| && ValidLens(lens0) && len <= 15
    ensures have == have0 + copy0 && RepeatedTo(lens0, lens, have0, len, copy0)
  {
    hide ValidLens;
    var copy := copy0;
    lens, have := lens0, have0;
    while copy != 0
      invariant have + copy == have0 + copy0 && |lens| == |lens0| && ValidLens(lens) && have >= have0
      invariant lens[..have] == lens0[..have0] + Repeat(len, have - have0)
    {
      ValidSet(lens, have, len);
      assert Repeat(len, have + 1 - have0) == Repeat(len, have - have0) + [len];
      lens := lens[have := len];
      have := have + 1;
      assert lens[..have] == lens[..have - 1] + [len];
      copy := copy - 1;
    }
  }

  lemma ValidSet(lens: seq<nat>, i: nat, v: nat)
    requires ValidLens(lens) && i < |lens| && v <= 15
    ensures ValidLens(lens[i := v])
  {
  }

  ghost predicate RepeatedTo(lens0: seq<nat>, lens: seq<nat>, have: nat, len: nat, copy: nat)
  {
    && |lens| == |lens0| && ValidLens(lens) && have + copy <= |lens|
    && lens[..have + copy] == lens0[..have] + Repeat(len, copy)
  }

  lemma JustIsNeeded(given0: seq<byte>, given: seq<byte>, a: State)
    requires a.mode.CodeLens? && |a.mode.lens| < a.mode.nlen + a.mode.ndist
    requires JustEnough(given0, given, a.pos, a.mode.cl)
    ensures Needed(given0, given, a)
  {
    hide Decode;
  }

  lemma ShortIsShort(B: Bits, a: State)
    requires a.mode.CodeLens? && |a.mode.lens| < a.mode.nlen + a.mode.ndist && Decode(B, a.pos, a.mode.cl).Short?
    ensures Next(B, a).None?
  {
    hide Decode;
  }

  lemma DecodeAgain(given1: seq<byte>, given: seq<byte>, a: State)
    requires GoodState(a) && a.mode.CodeLens? && given1 <= given
    requires DecodeLength(BytesBits(given1), a.pos, a.mode.cl).Symbol?
    ensures DecodeLength(BytesBits(given), a.pos, a.mode.cl) == DecodeLength(BytesBits(given1), a.pos, a.mode.cl)
  {
    var more := given[|given1|..];
    assert given == given1 + more;
    DecodeMore(given1, more, a);
  }

  /** A plain code length. */
  lemma PlainGoes(B: Bits, a: State, st: Ctl, s: nat, n: nat) returns (b: State)
    requires GoodState(a) && a.mode.CodeLens? && st.mode.CODELENS? && Matches(st, a) && st.have < st.nlen + st.ndist
    requires DecodeLength(B, a.pos, a.mode.cl) == Symbol(s, n) && s < 16
    ensures st.have < |st.lens| && b.pos == a.pos + n && b.mode.CodeLens?
    ensures Goes(B, a, b, st.(lens := st.lens[st.have := s], have := st.have + 1))
  {
    hide Decode, Acceptable, IsTable;
    b := Next(B, a).value;
    assert st.lens[st.have := s][..st.have + 1] == st.lens[..st.have] + [s];
  }

  /** A repeat of the previous length where there is none. */
  lemma NoPreviousGoes(B: Bits, a: State, st: Ctl, n: nat) returns (b: State)
    requires a.mode.CodeLens? && st.mode.CODELENS? && Matches(st, a) && st.have == 0 < st.nlen + st.ndist
    requires DecodeLength(B, a.pos, a.mode.cl) == Symbol(16, n) && a.pos + n + 2 <= |B|
    ensures b.pos == a.pos + n && b.mode.Bad? && Goes(B, a, b, st.(mode := BAD))
  {
    hide Decode, Acceptable, IsTable;
    b := Next(B, a).value;
  }

  /** A repeat that fits, or does not. */
  lemma RepeatGoes(B: Bits, a: State, st: Ctl, s: nat, n: nat, len: nat, copy: nat, lens: seq<nat>) returns (b: State)
    requires GoodState(a) && a.mode.CodeLens? && st.mode.CODELENS? && Matches(st, a) && st.have < st.nlen + st.ndist
    requires DecodeLength(B, a.pos, a.mode.cl) == Symbol(s, n) && 16 <= s <= 18 && a.pos + n + RepeatBits(s) <= |B|
    requires s == 16 ==> st.have > 0 && len == st.lens[st.have - 1]
    requires s != 16 ==> len == 0
    requires copy == RepeatBase(s) + Num(B, a.pos + n, RepeatBits(s))
    requires st.have + copy <= st.nlen + st.ndist ==> RepeatedTo(st.lens, lens, st.have, len, copy)
    ensures b.pos == a.pos + n + RepeatBits(s) && (b.mode.CodeLens? || b.mode.Bad?)
    ensures Goes(B, a, b, if st.have + copy > st.nlen + st.ndist then st.(mode := BAD)
             else st.(lens := lens, have := st.have + copy))
  {
    hide Decode, Acceptable, IsTable, Num;
    b := Next(B, a).value;
  }

  /** Both codes have been sent. */
  lemma CodesBuilt(B: Bits, a: State, st: Ctl, lencode: seq<Entry>, lenbits: nat, distcode: seq<Entry>, distbits: nat,
                   lok: bool, dok: bool)
    returns (b: State)
    requires st.have == st.nlen + st.ndist <= |st.lens| && st.nlen <= 286 && st.ndist <= 30
    requires lok <==> Acceptable(LENS, st.lens[..st.nlen])
    requires lok ==>
             IsTable(lencode, lenbits, LENS, st.lens[..st.nlen]) && (dok <==>
                 Acceptable(DISTS, st.lens[st.nlen..st.have]))
    requires lok && dok ==> IsTable(distcode, distbits, DISTS, st.lens[st.nlen..st.have])
    requires GoodState(a) && a.mode.CodeLens? && st.mode.CODELENS? && Matches(st, a)
    ensures b.pos == a.pos && (b.mode.Len? || b.mode.Bad?)
    ensures Goes(B, a, b, st.(lencode := lencode, lenbits := lenbits, distcode := if lok then distcode else st.distcode,
                              distbits := if lok then distbits else st.distbits, mode := if lok && dok then LEN
                                  else BAD))
  {
    hide Decode, Acceptable, IsTable;
    assert a.mode.lens[..st.nlen] == st.lens[..st.nlen] && a.mode.lens[st.nlen..] == st.lens[st.nlen..st.have];
    b := Next(B, a).value;
  }

  // ---------- symbols ----------

  lemma SymbolNeeded(given0: seq<byte>, given: seq<byte>, a: State)
    requires a.mode.Len? || a.mode.Dist?
    requires JustEnough(given0, given, a.pos, if a.mode.Len? then a.mode.c.ll else a.mode.c.dl)
    ensures Needed(given0, given, a)
  {
    hide Decode;
  }

  lemma NoSymbolYet(B: Bits, a: State)
    requires a.mode.Len? || a.mode.Dist?
    requires Decode(B, a.pos, if a.mode.Len? then a.mode.c.ll else a.mode.c.dl).Short?
    ensures Next(B, a).None?
  {
    hide Decode;
  }

  lemma LenEntry(s: nat, e: Entry)
    requires s < 288 && e == SymEntry(LENS, s, e.bits)
    ensures s < 256 ==> e.op == 0 && e.val == s
    ensures s == 256 ==> e.op == 96
    ensures 257 <= s <= 285 ==> 16 <= e.op <= 21 && e.op == LEXT[s - 257] && e.val == LBASE[s - 257]
    ensures s > 285 ==> e.op == 201 || e.op == 196
  {
  }

  /** What the fields become after the entry e for a literal/length code. */
  function AfterLen(st: Ctl, e: Entry): Ctl
  {
    if e.op == 0 then st.(length := e.val, mode := LIT)
    else if e.op / 32 % 2 == 1 then st.(length := e.val, mode := TYPE)
    else if e.op / 64 % 2 == 1 then st.(length := e.val, mode := BAD)
    else st.(length := e.val, extra := e.op % 16, mode := LENEXT)
  }

  lemma LenNext(B: Bits, a: State, s: nat, n: nat)
    requires a.mode.Len? && Decode(B, a.pos, a.mode.c.ll) == Symbol(s, n)
    ensures Next(B, a) == Some(a.(pos := a.pos + n,
              mode := if s < 256 then Lit(a.mode.c, s) else if s == 256 then Type else if s > 285 then Bad
                      else LenExt(a.mode.c, LBASE[s - 257], LEXT[s - 257] - 16)))
  {
    hide Decode;
  }

  lemma LenMatches(st: Ctl, a: State, b: State, s: nat, e: Entry, extra: nat)
    requires a.mode.Len? && s < 288 && b.last == a.last
    requires s < 256 ==> b.mode == Lit(a.mode.c, s)
    requires s == 256 ==> b.mode == Type
    requires s > 285 ==> b.mode == Bad
    requires 257 <= s <= 285 ==> e.op == 16 + extra && b.mode == LenExt(a.mode.c, e.val, extra)
    requires Matches(st, a) && e == SymEntry(LENS, s, e.bits)
    ensures Matches(AfterLen(st, e), b)
  {
    hide IsTable, SymEntry, ValidLens;
    LenEntry(s, e);
  }

  /** A literal/length symbol: the bits of the operation tell what it is. */
  lemma LenGoes(B: Bits, a: State, st: Ctl, e: Entry, n: nat) returns (b: State)
    requires GoodState(a) && a.mode.Len? && st.mode.LEN? && Matches(st, a) && |a.mode.c.ll| <= 288
    requires Means(Decode(B, a.pos, a.mode.c.ll), LENS, a.mode.c.ll, e, n)
    ensures b.pos == a.pos + n && n > 0 && !b.mode.Stored? && !b.mode.Copying?
    ensures Goes(B, a, b, AfterLen(st, e))
  {
    hide Decode, IsTable, SymEntry, GoodState, ValidLens, Matches, AfterLen, Next;
    var d := Decode(B, a.pos, a.mode.c.ll);
    SomeBits(B, a.pos, a.mode.c.ll);
    if d.Symbol? {
      LenNext(B, a, d.s, n);
      b := Next(B, a).value;
      LenEntry(d.s, e);
      LenMatches(st, a, b, d.s, e, if 257 <= d.s <= 285 then e.op - 16 else 0);
    } else {
      b := a.(mode := Bad, pos := a.pos + 1);
      NoneNext(B, a);
      InvalidMatches(st, a, b);
    }
  }

  lemma InvalidMatches(st: Ctl, a: State, b: State)
    requires Matches(st, a) && b.mode.Bad? && b.last == a.last
    ensures Matches(AfterLen(st, INVALID), b)
  {
    hide IsTable, ValidLens;
  }

  lemma SomeBits(B: Bits, pos: nat, lens: seq<nat>)
    ensures Decode(B, pos, lens).Symbol? ==> Decode(B, pos, lens).n > 0
  {
  }

  lemma LenExtGoes(B: Bits, a: State, st: Ctl) returns (b: State)
    requires GoodState(a) && a.mode.LenExt? && st.mode.LENEXT? && Matches(st, a) && a.pos + st.extra <= |B|
    ensures b.pos == a.pos + st.extra && b.mode.Dist?
    ensures Goes(B, a, b, st.(length := if st.extra != 0 then st.length + Num(B, a.pos, st.extra)
             else st.length, mode := DIST))
  {
    hide Num, IsTable, GoodCodes, ValidLens;
    NoBitsNum(B, a.pos);
    b := Next(B, a).value;
  }

  lemma NoBitsNum(B: Bits, pos: nat)
    ensures pos <= |B| ==> Num(B, pos, 0) == 0
  {
  }

  lemma DistEntryIs(s: nat, e: Entry)
    requires s < 32 && e == SymEntry(DISTS, s, e.bits)
    ensures s <= 29 ==> 16 <= e.op <= 29 && e.op == DEXT[s] && e.val == DBASE[s]
    ensures s > 29 ==> e.op == 64
  {
  }

  lemma DistGoes(B: Bits, a: State, st: Ctl, e: Entry, n: nat) returns (b: State)
    requires GoodState(a) && a.mode.Dist? && st.mode.DIST? && Matches(st, a) && |a.mode.c.dl| <= 32
    requires Means(Decode(B, a.pos, a.mode.c.dl), DISTS, a.mode.c.dl, e, n)
    ensures b.pos == a.pos + n && n > 0 && (b.mode.DistExt? || b.mode.Bad?)
    ensures Goes(B, a, b, if e.op / 64 % 2 == 1 then st.(mode := BAD)
             else st.(offset := e.val, extra := e.op % 16, mode := DISTEXT))
  {
    hide Decode, IsTable, SymEntry, GoodCodes, ValidLens;
    var d := Decode(B, a.pos, a.mode.c.dl);
    SomeBits(B, a.pos, a.mode.c.dl);
    b := Next(B, a).value;
    if d.Symbol? {
      DistEntryIs(d.s, e);
    }
  }

  lemma DistExtGoes(B: Bits, a: State, st: Ctl) returns (b: State)
    requires GoodState(a) && a.mode.DistExt? && st.mode.DISTEXT? && Matches(st, a) && a.pos + st.extra <= |B|
    ensures b.pos == a.pos + st.extra && (b.mode.Match? || b.mode.Bad?)
    ensures var offset := if st.extra != 0 then st.offset + Num(B, a.pos, st.extra) else st.offset;
            Goes(B, a, b, st.(offset := offset, mode := if offset > |a.out| then BAD else MATCH))
  {
    hide Num, IsTable, GoodCodes, ValidLens;
    NoBitsNum(B, a.pos);
    b := Next(B, a).value;
  }

  // ---------- output ----------

  lemma {:induction false} CopySome(B: Bits, a: State, data: seq<byte>)
    requires a.mode.Copying? && |data| <= a.mode.left && At(B, a.pos, BytesBits(data))
    ensures Reach(B, a, a.(mode := Copying(a.mode.left - |data|), pos := a.pos + 8 * |data|, out := a.out + data))
    decreases |data|
  {
    hide At, Reach, Next, BitsOf, Steps, BytesBits;
    if data == [] {
      assert a.out + data == a.out;
      ReachSelf(B, a);
    } else {
      assert data == [data[0]] + data[1..];
      BytesBitsAppend([data[0]], data[1..]);
      OneByte(data[0]);
      AtSplit(B, a.pos, BytesBits([data[0]]), BytesBits(data[1..]));
      var a1 := a.(mode := Copying(a.mode.left - 1), pos := a.pos + 8, out := a.out + [data[0]]);
      ReadOneByte(B, a, data[0]);
      ReachNext(B, a, a1);
      CopySome(B, a1, data[1..]);
      assert a1.out + data[1..] == a.out + data;
      ReachTrans(B, a, a1, a.(mode := Copying(a.mode.left - |data|), pos := a.pos + 8 * |data|, out := a.out + data));
    }
  }

  /** n bytes of a match. */
  lemma {:induction false} MatchSome(B: Bits, a: State, n: nat)
    requires a.mode.Match? && 1 <= n <= a.mode.length && 1 <= a.mode.offset <= |a.out|
    ensures Reach(B, a, a.(mode := if n == a.mode.length then Len(a.mode.c)
             else Match(a.mode.c, a.mode.length - n, a.mode.offset),
                           out := CopyBytes(a.out, n, a.mode.offset)))
    decreases n
  {
    hide Reach, Next;
    var m := a.mode;
    var out := a.out + [a.out[|a.out| - m.offset]];
    var b := a.(mode := if m.length == 1 then Len(m.c) else Match(m.c, m.length - 1, m.offset), out := out);
    OneMatched(B, a);
    ReachNext(B, a, b);
    if n == 1 {
      assert CopyBytes(a.out, 1, m.offset) == CopyBytes(out, 0, m.offset) == out;
    } else {
      MatchSome(B, b, n - 1);
      assert CopyBytes(a.out, n, m.offset) == CopyBytes(out, n - 1, m.offset);
      ReachTrans(B, a, b, a.(mode := if n == m.length then Len(m.c) else Match(m.c, m.length - n, m.offset),
                             out := CopyBytes(a.out, n, m.offset)));
    }
  }

  lemma OneMatched(B: Bits, a: State)
    requires a.mode.Match? && 1 <= a.mode.length && 1 <= a.mode.offset <= |a.out|
    ensures var m := a.mode;
            Next(B, a) == Some(a.(mode := if m.length == 1 then Len(m.c) else Match(m.c, m.length - 1, m.offset),
                                  out := a.out + [a.out[|a.out| - m.offset]]))
  {
  }

  /** A state in which the machine does not wait for input holds few bits. */
  lemma OutputTight(given: seq<byte>, a: State)
    requires GoodState(a) && Tight(given, a) && (a.mode.Match? || a.mode.Lit?)
    ensures 8 * |given| - a.pos < 8
  {
  }

  lemma LitGoes(B: Bits, a: State, st: Ctl) returns (b: State)
    requires a.mode.Lit? && st.mode.LIT? && Matches(st, a)
    ensures st.length < 256
    ensures b == a.(mode := Len(a.mode.c), out := a.out + [a.mode.b], toks := a.toks + [Literal(a.mode.b)])
    ensures a.mode.b == st.length && Reach(B, a, b) && Matches(st.(mode := LEN), b)
  {
    hide IsTable, ValidLens;
    b := a.(mode := Len(a.mode.c), out := a.out + [a.mode.b], toks := a.toks + [Literal(a.mode.b)]);
    ReachNext(B, a, b);
  }

  /** copy bytes of a match. */
  lemma MatchGoes(B: Bits, a: State, st: Ctl, copy: nat) returns (b: State)
    requires GoodState(a) && a.mode.Match? && st.mode.MATCH? && Matches(st, a) && 1 <= copy <= st.length
    ensures 1 <= st.offset <= |a.out| && b.out == CopyBytes(a.out, copy, st.offset) && b.pos == a.pos
    ensures (b.mode.Len? || b.mode.Match?)
    ensures Reach(B, a, b)
    ensures Matches(st.(length := st.length - copy, mode := if st.length == copy then LEN else MATCH), b)
  {
    hide IsTable, ValidLens, GoodCodes, CopyBytes;
    MatchSome(B, a, copy);
    b := a.(mode := if copy == a.mode.length then Len(a.mode.c)
        else Match(a.mode.c, a.mode.length - copy, a.mode.offset),
            out := CopyBytes(a.out, copy, a.mode.offset));
  }

  /** Bytes of a stored block. */
  lemma CopyGoes(B: Bits, a: State, st: Ctl, data: seq<byte>) returns (b: State)
    requires a.mode.Copying? && st.mode.COPY? && Matches(st, a) && |data| <= st.length && At(B, a.pos, BytesBits(data))
    ensures b == a.(mode := Copying(st.length - |data|), pos := a.pos + 8 * |data|, out := a.out + data)
    ensures Reach(B, a, b) && Matches(st.(length := st.length - |data|), b)
  {
    hide IsTable, ValidLens;
    CopySome(B, a, data);
    b := a.(mode := Copying(st.length - |data|), pos := a.pos + 8 * |data|, out := a.out + data);
  }

  lemma CopyEnds(B: Bits, a: State, st: Ctl) returns (b: State)
    requires a.mode.Copying? && st.mode.COPY? && Matches(st, a) && st.length == 0
    ensures b == a.(mode := Type) && Goes(B, a, b, st.(mode := TYPE))
  {
    hide IsTable, ValidLens;
    b := a.(mode := Type);
  }

  // ---------- the fast path ----------

  /** The states between two symbols and inside one: their steps need exactly the bits they consume. */
  predicate Decoding(m: Mode)
  {
    m.Len? || m.Lit? || m.LenExt? || m.Dist? || m.DistExt? || m.Match?
  }

  lemma FastShorter(B: Bits, a: State, b: State)
    requires GoodState(a) && Decoding(a.mode) && Next(B, a) == Some(b) && b.pos <= |B|
    ensures Next(B[..b.pos], a) == Some(b)
  {
    hide Decode, Num, Acceptable;
    if a.mode.Len? || a.mode.Dist? {
      SymbolShorter(B, b.pos, a, b);
    } else if a.mode.LenExt? || a.mode.DistExt? {
      NumShorter(B, b.pos, a.pos, a.mode.extra);
    }
  }

  /** A run over the consumed bits only, one step longer. */
  lemma FastFurther(B: Bits, a0: State, a: State, b: State)
    requires GoodState(a0) && GoodState(a) && Decoding(a.mode) && a.pos <= b.pos <= |B|
    requires Reach(B[..a.pos], a0, a) && Next(B, a) == Some(b)
    ensures Reach(B[..b.pos], a0, b) && GoodState(b)
  {
    hide Next, GoodState, Reach;
    FastShorter(B, a, b);
    assert B[..b.pos] == B[..a.pos] + B[a.pos..b.pos];
    ReachLonger(B[..a.pos], B[a.pos..b.pos], a0, a);
    ReachNext(B[..b.pos], a, b);
    ReachTrans(B[..b.pos], a0, a, b);
    NextGood(B, a, b);
  }

  /** So is a whole match. */
  lemma FastMatch(B: Bits, a0: State, a: State)
    requires GoodState(a0) && GoodState(a) && a.mode.Match? && a.pos <= |B| && Reach(B[..a.pos], a0, a)
    ensures 1 <= a.mode.offset <= |a.out|
    ensures var b := a.(mode := Len(a.mode.c), out := CopyBytes(a.out, a.mode.length, a.mode.offset));
            Reach(B[..b.pos], a0, b) && GoodState(b)
  {
    hide Reach, GoodCodes;
    var b := a.(mode := Len(a.mode.c), out := CopyBytes(a.out, a.mode.length, a.mode.offset));
    MatchSome(B[..a.pos], a, a.mode.length);
    ReachTrans(B[..a.pos], a0, a, b);
  }

  /** What takes a run away from its first state is there in every longer prefix of the stream. */
  lemma FirstStep(B: Bits, p: nat, n: nat, a0: State, a: State)
    requires GoodState(a0) && p <= n <= |B| && Reach(B[..p], a0, a) && a0 != a
    ensures Next(B[..n], a0).Some?
  {
    hide GoodState, Next;
    var k: nat :| Steps(B[..p], a0, k) == Some(a);
    assert k > 0 && Next(B[..p], a0).Some?;
    assert B[..n] == B[..p] + B[p..n];
    NextLonger(B[..p], B[p..n], a0);
  }

  lemma PrefixBits(given: seq<byte>, given1: seq<byte>)
    requires given1 <= given
    ensures BytesBits(given1) == BytesBits(given)[..8 * |given1|]
  {
    assert given == given1 + given[|given1|..];
    BytesBitsAppend(given1, given[|given1|..]);
  }

  lemma TightMeans(given: seq<byte>, a: State, less: seq<byte>)
    requires Tight(given, a) && a.pos + 8 <= 8 * |given| && less == given[..|given| - 1]
    ensures Next(BytesBits(less), a).None?
  {
    hide Next, BytesBits;
  }

  /** The bytes given back were all pulled for nothing: the first symbol needed the last byte held before. */
  lemma NotTooFar(given0: seq<byte>, given: seq<byte>, a0: State, a: State)
    requires GoodState(a0) && Tight(given0, a0) && given0 <= given && a.pos <= 8 * |given| && a0.pos < a.pos
    requires Reach(BytesBits(given)[..a.pos], a0, a)
    ensures 8 * |given0| < a.pos + 8
  {
    hide GoodState, Next, Reach, Tight;
    if a.pos + 8 <= 8 * |given0| {
      var less := given0[..|given0| - 1];
      TightMeans(given0, a0, less);
      assert less <= given;
      PrefixBits(given, less);
      FirstStep(BytesBits(given), a.pos, 8 * |less|, a0, a);
      assert false;
    }
  }

  lemma FastLenNext(B: Bits, a: State, e: Entry, n: nat) returns (b: State)
    requires GoodState(a) && a.mode.Len? && |a.mode.c.ll| <= 288
    requires Means(Decode(B, a.pos, a.mode.c.ll), LENS, a.mode.c.ll, e, n)
    ensures Next(B, a) == Some(b) && n > 0
    ensures e.op == 0 ==> e.val < 256
    ensures b == a.(pos := a.pos + n, mode := if e.op == 0 then Lit(a.mode.c, e.val)
                      else if e.op / 16 % 2 == 1 then LenExt(a.mode.c, e.val, e.op % 16)
                      else if e.op / 32 % 2 == 1 then Type else Bad)
  {
    hide Decode, SymEntry, GoodState, ValidLens, Next;
    var d := Decode(B, a.pos, a.mode.c.ll);
    SomeBits(B, a.pos, a.mode.c.ll);
    if d.Symbol? {
      LenNext(B, a, d.s, n);
      LenEntry(d.s, e);
    } else {
      NoneNext(B, a);
    }
    b := Next(B, a).value;
  }

  lemma NoneNext(B: Bits, a: State)
    requires a.mode.Len? && Decode(B, a.pos, a.mode.c.ll).NoSymbol?
    ensures Next(B, a) == Some(a.(mode := Bad, pos := a.pos + 1))
  {
    hide Decode;
  }

  lemma FastDistNext(B: Bits, a: State, e: Entry, n: nat) returns (b: State)
    requires GoodState(a) && a.mode.Dist? && |a.mode.c.dl| <= 32
    requires Means(Decode(B, a.pos, a.mode.c.dl), DISTS, a.mode.c.dl, e, n)
    ensures Next(B, a) == Some(b) && n > 0
    ensures b == a.(pos := a.pos + n, mode := if e.op / 16 % 2 == 1
             then DistExt(a.mode.c, a.mode.length, e.val, e.op % 16) else Bad)
  {
    hide Decode, SymEntry, GoodState, ValidLens;
    var d := Decode(B, a.pos, a.mode.c.dl);
    SomeBits(B, a.pos, a.mode.c.dl);
    if d.Symbol? {
      DistEntryIs(d.s, e);
    }
    b := Next(B, a).value;
  }

  lemma FastLenExt(B: Bits, a: State) returns (b: State)
    requires a.mode.LenExt? && a.pos + a.mode.extra <= |B|
    ensures b == a.(mode := Dist(a.mode.c, a.mode.base + if a.mode.extra != 0 then Num(B, a.pos, a.mode.extra)
             else 0), pos := a.pos + a.mode.extra)
    ensures Next(B, a) == Some(b)
  {
    hide Num;
    NoBitsNum(B, a.pos);
    b := Next(B, a).value;
  }

  lemma FastDistExt(B: Bits, a: State) returns (b: State)
    requires a.mode.DistExt? && a.pos + a.mode.extra <= |B|
    ensures var offset := a.mode.base + Num(B, a.pos, a.mode.extra);
            && b == a.(pos := a.pos + a.mode.extra, mode := if offset > |a.out| then Bad
                else Match(a.mode.c, a.mode.length, offset),
                       toks := if offset > |a.out| then a.toks else a.toks + [Copy(a.mode.length, offset)])
            && Next(B, a) == Some(b)
  {
    hide Num;
    b := Next(B, a).value;
  }

  lemma FastBounds(a: State)
    requires GoodState(a)
    ensures a.mode.LenExt? ==> a.mode.extra <= 5
    ensures a.mode.Dist? ==> 3 <= a.mode.length <= 258
    ensures a.mode.DistExt? ==>
             a.mode.extra <= 13 && 3 <= a.mode.length <= 258 && a.mode.base + Pow2(a.mode.extra) <= 32769
                 && 1 <= a.mode.base
    ensures a.mode.Match? ==> 1 <= a.mode.offset <= |a.out| && a.mode.offset <= 32768
  {
  }

  lemma MatchesEnd(st: Ctl, a0: State, a: State)
    requires Matches(st, a0) && st.mode.LEN? && a.last == a0.last
    ensures a.mode.Type? ==> Matches(st.(mode := TYPE), a)
    ensures a.mode.Bad? ==> Matches(st.(mode := BAD), a)
    ensures a.mode == a0.mode ==> Matches(st, a)
  {
    hide IsTable, ValidLens;
  }
}
