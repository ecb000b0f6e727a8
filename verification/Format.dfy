/**
 The deflate format (RFC 1951) as a deterministic machine that reads a bit stream, in steps as large
 as the states of inflate() (inflate.c) from TYPE to CHECK. Everything that writes or reads a
 stream in this project is related to the runs of this machine.
 */
module Format {
  import opened Shift
  import opened Bits
  import opened Canonical
  import opened InfTreesSpec

  datatype Option<T> = None | Some(value: T)

  /** A literal byte, or length bytes starting distance bytes back. */
  datatype Token = Literal(b: byte) | Copy(length: nat, distance: nat)

  /** The code lengths of the literal/length and of the distance code of a block. */
  datatype Codes = Codes(ll: seq<nat>, dl: seq<nat>)

  datatype Mode =
    | Type
    | Stored
    | Copying(left: nat)
    | Table
    | LenLens(nlen: nat, ndist: nat, ncode: nat, sent: seq<nat>)
    | CodeLens(nlen: nat, ndist: nat, cl: seq<nat>, lens: seq<nat>)
    | Len(c: Codes)
    | LenExt(c: Codes, base: nat, extra: nat)
    | Dist(c: Codes, length: nat)
    | DistExt(c: Codes, length: nat, base: nat, extra: nat)
    | Match(c: Codes, length: nat, offset: nat)
    | Lit(c: Codes, b: byte)
    | Done
    | Bad

  /** last: the current block is the last one. pos: the bits consumed. out: the bytes produced, and toks the tokens. */
  datatype State = State(mode: Mode, last: bool, pos: nat, out: seq<byte>, toks: seq<Token>)

  const START := State(Type, false, 0, [], [])

  /** The order in which the lengths of the code length code are sent. */
  const ORDER: seq<nat> := [16, 17, 18, 0, 8, 7, 9, 6, 10, 5, 11, 4, 12, 3, 13, 2, 14, 1, 15]

  // ---------- reading ----------

  ghost predicate At(B: Bits, pos: nat, b: Bits)
  {
    pos + |b| <= |B| && B[pos..pos + |b|] == b
  }

  /** The number in the n bits at pos. */
  function Num(B: Bits, pos: nat, n: nat): nat
    requires pos + n <= |B|
  {
    ValOf(B[pos..pos + n])
  }

  function Align(pos: nat): (r: nat)
    ensures pos <= r < pos + 8 && r % 8 == 0
  {
    (pos + 7) / 8 * 8
  }

  datatype Decoded = Symbol(s: nat, n: nat) | NoSymbol | Short

  ghost predicate CodeAt(B: Bits, pos: nat, lens: seq<nat>, s: nat)
  {
    HasCode(lens, s) && At(B, pos, SymBits(lens, s))
  }

  /** The symbol whose code is at pos. */
  ghost function Decode(B: Bits, pos: nat, lens: seq<nat>): Decoded
  {
    if exists s: nat :: CodeAt(B, pos, lens, s) then
      var s: nat :| CodeAt(B, pos, lens, s);
      Symbol(s, lens[s])
    else if Complete(lens) || pos >= |B| then Short
    else NoSymbol
  }

  // ---------- the steps ----------

  /** The lengths of the fixed codes: section 3.2.6. */
  function FixedLens(): (r: seq<nat>)
    ensures |r| == 288
  {
    seq(288, i => if i < 144 then 8 else if i < 256 then 9 else if i < 280 then 7 else 8)
  }

  function FixedDists(): (r: seq<nat>)
    ensures |r| == 32
  {
    seq(32, _ => 5)
  }

  function FixedCodes(): Codes
  {
    Codes(FixedLens(), FixedDists())
  }

  ghost function TypeStep(B: Bits, a: State): Option<State>
    requires a.mode.Type?
  {
    if a.last then Some(a.(mode := Done, pos := Align(a.pos)))
    else if a.pos + 3 > |B| then None
    else
      var b := a.(last := B[a.pos], pos := a.pos + 3);
      match Num(B, a.pos + 1, 2)
      case 0 => Some(b.(mode := Stored, pos := Align(a.pos + 3)))
      case 1 => Some(b.(mode := Len(FixedCodes())))
      case 2 => Some(b.(mode := Mode.Table))
      case _ => Some(b.(mode := Bad))
  }

  ghost function StoredStep(B: Bits, a: State): Option<State>
    requires a.mode.Stored?
  {
    if a.pos + 32 > |B| then None
    else
      var n := Num(B, a.pos, 16);
      if n + Num(B, a.pos + 16, 16) != 0xffff then Some(a.(mode := Bad))
      else Some(a.(mode := Copying(n), pos := a.pos + 32))
  }

  ghost function CopyingStep(B: Bits, a: State): Option<State>
    requires a.mode.Copying?
  {
    if a.mode.left == 0 then Some(a.(mode := Type))
    else if a.pos + 8 > |B| then None
    else Some(a.(mode := Copying(a.mode.left - 1), pos := a.pos + 8, out := a.out + [ByteAt(B, a.pos)]))
  }

  function ByteAt(B: Bits, pos: nat): (b: byte)
    requires pos + 8 <= |B|
  {
    assert Pow2(8) == 256 by {
      assert Pow2(4) == 16;
    }
    Num(B, pos, 8)
  }

  ghost function TableStep(B: Bits, a: State): Option<State>
    requires a.mode.Table?
  {
    if a.pos + 14 > |B| then None
    else
      var nlen, ndist, ncode := Num(B, a.pos, 5) + 257, Num(B, a.pos + 5, 5) + 1, Num(B, a.pos + 10, 4) + 4;
      var b := a.(pos := a.pos + 14);
      if nlen > 286 || ndist > 30 then Some(b.(mode := Bad))
      else Some(b.(mode := LenLens(nlen, ndist, ncode, [])))
  }

  /** The place of each symbol in the order of sending. */
  const RANK: seq<nat> := [3, 17, 15, 13, 11, 9, 7, 5, 4, 6, 8, 10, 12, 14, 16, 18, 0, 1, 2]

  /** The code length code, of which the lengths in sent have been sent in order. */
  function CodeLengthCode(sent: seq<nat>): (cl: seq<nat>)
    ensures |cl| == 19
  {
    seq(19, i requires 0 <= i < 19 => if RANK[i] < |sent| then sent[RANK[i]] else 0)
  }

  ghost function LenLensStep(B: Bits, a: State): Option<State>
    requires a.mode.LenLens?
  {
    var m := a.mode;
    if |m.sent| < m.ncode then
      if a.pos + 3 > |B| then None
      else Some(a.(mode := m.(sent := m.sent + [Num(B, a.pos, 3)]), pos := a.pos + 3))
    else
      var cl := CodeLengthCode(m.sent);
      if Acceptable(CODES, cl) then Some(a.(mode := CodeLens(m.nlen, m.ndist, cl, [])))
      else Some(a.(mode := Bad))
  }

  /** With no code at all, inflate reads each bit as the length 0. */
  ghost function DecodeLength(B: Bits, pos: nat, cl: seq<nat>): Decoded
  {
    var d := Decode(B, pos, cl);
    if d.NoSymbol? then Symbol(0, 1) else d
  }

  function Repeat(v: nat, n: nat): (r: seq<nat>)
    ensures |r| == n && forall i :: 0 <= i < n ==> r[i] == v
  {
    seq(n, _ => v)
  }

  /** The extra bits and the base of the repeat counts of symbols 16, 17 and 18. */
  function RepeatBits(s: nat): nat
  {
    if s == 16 then 2 else if s == 17 then 3 else 7
  }

  function RepeatBase(s: nat): nat
  {
    if s == 18 then 11 else 3
  }

  ghost function CodeLensStep(B: Bits, a: State): Option<State>
    requires a.mode.CodeLens?
  {
    var m := a.mode;
    if |m.lens| >= m.nlen + m.ndist then
      if Acceptable(LENS, m.lens[..m.nlen]) && Acceptable(DISTS, m.lens[m.nlen..]) then
        Some(a.(mode := Len(Codes(m.lens[..m.nlen], m.lens[m.nlen..]))))
      else Some(a.(mode := Bad))
    else
      match DecodeLength(B, a.pos, m.cl)
      case Symbol(s, n) => CodeLensSymbol(B, a, s, n)
      case _ => None
  }

  ghost function CodeLensSymbol(B: Bits, a: State, s: nat, n: nat): Option<State>
    requires a.mode.CodeLens?
  {
    var m := a.mode;
    if s < 16 then Some(a.(mode := m.(lens := m.lens + [s]), pos := a.pos + n))
    else
      var k := RepeatBits(s);
      if a.pos + n + k > |B| then None
      else if s == 16 && m.lens == [] then Some(a.(mode := Bad, pos := a.pos + n))
      else
        var count := RepeatBase(s) + Num(B, a.pos + n, k);
        var b := a.(pos := a.pos + n + k);
        if |m.lens| + count > m.nlen + m.ndist then Some(b.(mode := Bad))
        else Some(b.(mode := m.(lens := m.lens + Repeat(if s == 16 then m.lens[|m.lens| - 1] else 0, count))))
  }

  ghost function LenStep(B: Bits, a: State): Option<State>
    requires a.mode.Len?
  {
    match Decode(B, a.pos, a.mode.c.ll)
    case Short => None
    case NoSymbol => Some(a.(mode := Bad, pos := a.pos + 1))
    case Symbol(s, n) =>
      var b := a.(pos := a.pos + n);
      if s < 256 then Some(b.(mode := Lit(a.mode.c, s)))
      else if s == 256 then Some(b.(mode := Type))
      else if s > 285 then Some(b.(mode := Bad))
      else Some(b.(mode := LenExt(a.mode.c, LBASE[s - 257], LEXT[s - 257] - 16)))
  }

  ghost function LenExtStep(B: Bits, a: State): Option<State>
    requires a.mode.LenExt?
  {
    var m := a.mode;
    if a.pos + m.extra > |B| then None
    else Some(a.(mode := Dist(m.c, m.base + Num(B, a.pos, m.extra)), pos := a.pos + m.extra))
  }

  ghost function DistStep(B: Bits, a: State): Option<State>
    requires a.mode.Dist?
  {
    match Decode(B, a.pos, a.mode.c.dl)
    case Short => None
    case NoSymbol => Some(a.(mode := Bad, pos := a.pos + 1))
    case Symbol(s, n) =>
      var b := a.(pos := a.pos + n);
      if s > 29 then Some(b.(mode := Bad))
      else Some(b.(mode := DistExt(a.mode.c, a.mode.length, DBASE[s], DEXT[s] - 16)))
  }

  /** A distance that reaches back before the first byte is an error. */
  ghost function DistExtStep(B: Bits, a: State): Option<State>
    requires a.mode.DistExt?
  {
    var m := a.mode;
    if a.pos + m.extra > |B| then None
    else
      var offset := m.base + Num(B, a.pos, m.extra);
      var b := a.(pos := a.pos + m.extra);
      if offset > |a.out| then Some(b.(mode := Bad))
      else Some(b.(mode := Match(m.c, m.length, offset), toks := a.toks + [Copy(m.length, offset)]))
  }

  ghost function MatchStep(a: State): Option<State>
    requires a.mode.Match?
  {
    var m := a.mode;
    if m.length == 0 || !(1 <= m.offset <= |a.out|) then None
    else
      var out := a.out + [a.out[|a.out| - m.offset]];
      if m.length == 1 then Some(a.(mode := Len(m.c), out := out))
      else Some(a.(mode := Match(m.c, m.length - 1, m.offset), out := out))
  }

  ghost function Next(B: Bits, a: State): Option<State>
  {
    match a.mode
    case Type => TypeStep(B, a)
    case Stored => StoredStep(B, a)
    case Copying(_) => CopyingStep(B, a)
    case Table => TableStep(B, a)
    case LenLens(_, _, _, _) => LenLensStep(B, a)
    case CodeLens(_, _, _, _) => CodeLensStep(B, a)
    case Len(_) => LenStep(B, a)
    case LenExt(_, _, _) => LenExtStep(B, a)
    case Dist(_, _) => DistStep(B, a)
    case DistExt(_, _, _, _) => DistExtStep(B, a)
    case Match(_, _, _) => MatchStep(a)
    case Lit(c, b) => Some(a.(mode := Len(c), out := a.out + [b], toks := a.toks + [Literal(b)]))
    case Done => None
    case Bad => None
  }

  ghost function Steps(B: Bits, a: State, n: nat): Option<State>
    decreases n
  {
    if n == 0 then Some(a)
    else match Next(B, a) case None => None case Some(b) => Steps(B, b, n - 1)
  }

  ghost predicate Reach(B: Bits, a: State, b: State)
  {
    exists n: nat :: Steps(B, a, n) == Some(b)
  }

  // ---------- runs ----------

  lemma ReachSelf(B: Bits, a: State)
    ensures Reach(B, a, a)
  {
    assert Steps(B, a, 0) == Some(a);
  }

  lemma ReachNext(B: Bits, a: State, b: State)
    requires Next(B, a) == Some(b)
    ensures Reach(B, a, b)
  {
    assert Steps(B, b, 0) == Some(b);
    assert Steps(B, a, 1) == Some(b);
  }

  lemma {:induction false} StepsAdd(B: Bits, a: State, m: nat, n: nat)
    requires Steps(B, a, m).Some?
    ensures Steps(B, a, m + n) == Steps(B, Steps(B, a, m).value, n)
    decreases m
  {
    hide Next;
    if m > 0 {
      StepsAdd(B, Next(B, a).value, m - 1, n);
    }
  }

  lemma ReachTrans(B: Bits, a: State, b: State, c: State)
    requires Reach(B, a, b) && Reach(B, b, c)
    ensures Reach(B, a, c)
  {
    var m: nat :| Steps(B, a, m) == Some(b);
    var n: nat :| Steps(B, b, n) == Some(c);
    StepsAdd(B, a, m, n);
  }

  /** Runs from one state do not branch. */
  lemma NoBranching(B: Bits, a: State, b: State, c: State)
    requires Reach(B, a, b) && Reach(B, a, c)
    ensures Reach(B, b, c) || Reach(B, c, b)
  {
    hide Next, Steps;
    var m: nat :| Steps(B, a, m) == Some(b);
    var n: nat :| Steps(B, a, n) == Some(c);
    if m <= n {
      StepsAdd(B, a, m, n - m);
    } else {
      StepsAdd(B, a, n, m - n);
    }
  }

  lemma OutStep(B: Bits, a: State, b: State)
    requires Next(B, a) == Some(b)
    ensures a.out <= b.out && a.pos <= b.pos && a.toks <= b.toks
  {
    hide Decode, Num, Acceptable, Align, CodeLengthCode, Repeat, ByteAt, FixedCodes, DecodeLength, RepeatBits,
         RepeatBase;
  }

  lemma {:induction false} OutGrows(B: Bits, a: State, n: nat)
    requires Steps(B, a, n).Some?
    ensures a.out <= Steps(B, a, n).value.out && a.pos <= Steps(B, a, n).value.pos
    ensures a.toks <= Steps(B, a, n).value.toks
    decreases n
  {
    hide Next;
    if n > 0 {
      var b := Next(B, a).value;
      OutStep(B, a, b);
      OutGrows(B, b, n - 1);
    }
  }

  /** A state in which the machine stops, whatever follows in the stream. */
  predicate Final(a: State)
  {
    a.mode.Done? || a.mode.Bad?
  }

  lemma FinalIsLast(B: Bits, a: State, b: State)
    requires Final(a) && Reach(B, a, b)
    ensures a == b
  {
    var n: nat :| Steps(B, a, n) == Some(b);
    assert n == 0 || Next(B, a) == None;
  }

  // ---------- states that occur ----------

  ghost predicate GoodCodes(c: Codes)
  {
    && ValidLens(c.ll) && ValidLens(c.dl) && |c.ll| <= 288 && |c.dl| <= 32
    && Acceptable(LENS, c.ll) && Acceptable(DISTS, c.dl)
  }

  ghost predicate GoodMode(m: Mode)
  {
    match m
    case LenLens(nlen, ndist, ncode, sent) =>
      257 <= nlen <= 286 && 1 <= ndist <= 30 && |sent| <= ncode && 4 <= ncode <= 19 && forall i :: 0 <= i < |sent| ==>
          sent[i] < 8
    case CodeLens(nlen, ndist, cl, lens) =>
      && 257 <= nlen <= 286 && 1 <= ndist <= 30 && |lens| <= nlen + ndist && |cl| == 19
      && (forall i :: 0 <= i < |cl| ==> cl[i] < 8) && Acceptable(CODES, cl) && ValidLens(lens)
    case Len(c) => GoodCodes(c)
    case LenExt(c, base, extra) => GoodCodes(c) && 3 <= base <= 258 && extra <= 5 && base + Pow2(extra) <= 259
    case Dist(c, length) => GoodCodes(c) && 3 <= length <= 258
    case DistExt(c, length, base, extra) => GoodCodes(c) && 3 <= length <= 258 && 1 <= base && extra <= 13
        && base + Pow2(extra) <= 32769
    case Match(c, length, offset) => GoodCodes(c) && 1 <= length <= 258 && 1 <= offset <= 32768
    case Lit(c, _) => GoodCodes(c)
    case Copying(left) => left < 0x10000
    case _ => true
  }

  ghost predicate GoodState(a: State)
  {
    && GoodMode(a.mode)
    && (a.mode.Match? ==> a.mode.offset <= |a.out|)
    && (a.mode.Stored? || a.mode.Copying? || a.mode.Done? ==> a.pos % 8 == 0)
  }
}
