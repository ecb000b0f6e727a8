/** The Adler-32 checksum of adler32.c: sums whose reduction is put off, and adler32_combine. */
module Adler32 {
  import opened Bits
  import opened Format

  const BASE := 65521
  const NMAX := 5552

  /** What fits unsigned long where it has 32 bits. */
  type U32 = x: nat | x <= 0xffffffff

  datatype Sums = Sums(s1: nat, s2: nat)

  /** One byte: section 2.2 of RFC 1950. */
  function Step(s: Sums, b: byte): Sums
  {
    var s1 := (s.s1 + b) % BASE;
    Sums(s1, (s.s2 + s1) % BASE)
  }

  function Run(s: Sums, buf: seq<byte>): Sums
    decreases |buf|
  {
    if buf == [] then s else Step(Run(s, buf[..|buf| - 1]), buf[|buf| - 1])
  }

  function Pack(s: Sums): nat
  {
    s.s2 * 65536 + s.s1
  }

  function Unpack(adler: nat): Sums
  {
    Sums(adler % 65536, adler / 65536 % 65536)
  }

  predicate Reduced(s: Sums)
  {
    s.s1 < BASE && s.s2 < BASE
  }

  /** The checksum of a whole buffer: the sums start at 1 and 0. */
  function Adler(buf: seq<byte>): nat
  {
    Pack(Run(Sums(1, 0), buf))
  }

  lemma {:induction false} RunReduced(s: Sums, buf: seq<byte>)
    requires Reduced(s)
    ensures Reduced(Run(s, buf)) && Unpack(Pack(Run(s, buf))) == Run(s, buf)
    decreases |buf|
  {
    hide Pack, Unpack;
    if buf != [] {
      RunReduced(s, buf[..|buf| - 1]);
    }
    Unpacked(Run(s, buf));
  }

  lemma Unpacked(s: Sums)
    requires s.s1 < 65536 && s.s2 < 65536
    ensures Unpack(Pack(s)) == s
  {
  }

  lemma {:induction false} RunAppend(s: Sums, a: seq<byte>, b: seq<byte>)
    ensures Run(s, a + b) == Run(Run(s, a), b)
    decreases |b|
  {
    if b == [] {
      assert a + b == a;
    } else {
      assert (a + b)[..|a + b| - 1] == a + b[..|b| - 1];
      RunAppend(s, a, b[..|b| - 1]);
    }
  }

  // ---------- sums that are not reduced ----------

  function Raw(s: Sums, buf: seq<byte>): Sums
    decreases |buf|
  {
    if buf == [] then s
    else
      var r := Raw(s, buf[..|buf| - 1]);
      Sums(r.s1 + buf[|buf| - 1], r.s2 + r.s1 + buf[|buf| - 1])
  }

  function Mod(s: Sums): Sums
  {
    Sums(s.s1 % BASE, s.s2 % BASE)
  }

  lemma ModAdd(x: int, y: int)
    ensures (x % BASE + y) % BASE == (x + y) % BASE
  {
  }

  lemma LateStep(s: Sums, b: byte)
    ensures Step(Mod(s), b) == Mod(Sums(s.s1 + b, s.s2 + s.s1 + b))
  {
    ModAdd(s.s1, b);
    ModAdd(s.s2, (s.s1 + b) % BASE);
    ModAdd(s.s1 + b, s.s2);
  }

  /** Reducing late is reducing at every step. */
  lemma {:induction false} LateIsEarly(s: Sums, buf: seq<byte>)
    ensures Run(Mod(s), buf) == Mod(Raw(s, buf))
    decreases |buf|
  {
    hide Step, Mod;
    if buf != [] {
      LateIsEarly(s, buf[..|buf| - 1]);
      LateStep(Raw(s, buf[..|buf| - 1]), buf[|buf| - 1]);
    }
  }

  lemma RawOne(s: Sums, buf: seq<byte>, i: nat, k: nat)
    requires i <= k < |buf|
    ensures Raw(s, buf[i..k + 1]) == Sums(Raw(s, buf[i..k]).s1 + buf[k],
             Raw(s, buf[i..k]).s2 + Raw(s, buf[i..k]).s1 + buf[k])
  {
    assert buf[i..k + 1][..k - i] == buf[i..k];
  }

  /** The most that the second sum can be after n bytes. */
  function Cap(n: nat): nat
  {
    if n == 0 then BASE - 1 else Cap(n - 1) + (BASE - 1) + 255 * n
  }

  lemma {:induction false} Capped(s: Sums, buf: seq<byte>)
    requires Reduced(s)
    ensures Raw(s, buf).s1 <= BASE - 1 + 255 * |buf| && Raw(s, buf).s2 <= Cap(|buf|)
    decreases |buf|
  {
    if buf != [] {
      Capped(s, buf[..|buf| - 1]);
    }
  }

  lemma {:induction false} CapClosed(n: nat)
    ensures 2 * Cap(n) == 2 * (BASE - 1) * (n + 1) + 255 * (n * (n + 1))
  {
    if n > 0 {
      CapClosed(n - 1);
      assert n * (n + 1) == (n - 1) * n + 2 * n;
    }
  }

  lemma {:induction false} CapGrows(m: nat, n: nat)
    requires m <= n
    ensures Cap(m) <= Cap(n)
    decreases n
  {
    if m < n {
      CapGrows(m, n - 1);
    }
  }

  /** NMAX bytes do not overflow 32 bits, and one more might. */
  lemma NmaxFits()
    ensures Cap(NMAX) <= 0xffffffff < Cap(NMAX + 1)
  {
    hide Cap;
    CapClosed(NMAX);
    CapClosed(NMAX + 1);
  }

  lemma Small(s: Sums, buf: seq<byte>, i: nat, k: nat)
    requires Reduced(s) && i <= k <= |buf| && k - i <= NMAX
    ensures Raw(s, buf[i..k]).s1 <= BASE - 1 + 255 * (k - i) <= 0xffffffff
    ensures Raw(s, buf[i..k]).s2 <= Cap(k - i) <= 0xffffffff
  {
    hide Raw, Cap;
    Capped(s, buf[i..k]);
    CapGrows(k - i, NMAX);
    NmaxFits();
  }

  // ---------- MOD ----------

  function ShiftedBase(k: nat): nat
  {
    if k == 0 then BASE else 2 * ShiftedBase(k - 1)
  }

  /** MOD and MOD4 without division: a remainder by at most top + 1 subtractions. */
  method ModBySubtraction(a0: U32, top: nat) returns (a: U32)
    requires a0 < 2 * ShiftedBase(top)
    ensures a == a0 % BASE
  {
    a := a0;
    var k := top;
    while true
      invariant a < 2 * ShiftedBase(k) && a % BASE == a0 % BASE
      decreases k
    {
      Multiple(k, a);
      if a >= ShiftedBase(k) {
        a := a - ShiftedBase(k);
      }
      if k == 0 {
        break;
      }
      k := k - 1;
    }
  }

  lemma {:induction false} Multiple(k: nat, a: nat)
    ensures a >= ShiftedBase(k) ==> (a - ShiftedBase(k)) % BASE == a % BASE
    decreases k
  {
    if a >= ShiftedBase(k) && k > 0 {
      Multiple(k - 1, a);
      Multiple(k - 1, a - ShiftedBase(k - 1));
    }
  }

  lemma Tops()
    ensures ShiftedBase(4) == 16 * BASE && 2 * ShiftedBase(16) > 0xffffffff
  {
    assert ShiftedBase(8) == 256 * BASE;
    assert ShiftedBase(12) == 4096 * BASE;
  }

  method Reduce(a: U32, noDivide: bool) returns (r: U32)
    ensures r == a % BASE
  {
    if noDivide {
      Tops();
      r := ModBySubtraction(a, 16);
    } else {
      r := a % BASE;
    }
  }

  method Reduce4(a: U32, noDivide: bool) returns (r: U32)
    requires a < 32 * BASE
    ensures r == a % BASE
  {
    if noDivide {
      Tops();
      r := ModBySubtraction(a, 4);
    } else {
      r := a % BASE;
    }
  }

  // ---------- adler32 ----------

  /** DO1 n times: bytes i to i + n of the buffer, of which the sums have taken those from start on. */
  method DoSome(buf: seq<byte>, i: nat, n: nat, adler0: U32, sum0: U32, ghost start: nat, ghost s: Sums)
    returns (adler: U32, sum2: U32)
    requires Reduced(s) && start <= i <= i + n <= |buf| && i + n - start <= NMAX
    requires Raw(s, buf[start..i]) == Sums(adler0, sum0)
    ensures Raw(s, buf[start..i + n]) == Sums(adler, sum2)
  {
    hide Raw;
    adler, sum2 := adler0, sum0;
    for k := i to i + n
      invariant Raw(s, buf[start..k]) == Sums(adler, sum2)
    {
      RawOne(s, buf, start, k);
      Small(s, buf, start, k + 1);
      adler := adler + buf[k];
      sum2 := sum2 + adler;
    }
  }

  /** The sums have taken the first i bytes. */
  ghost predicate Took(s0: Sums, buf: seq<byte>, i: nat, adler: nat, sum2: nat)
  {
    i <= |buf| && Run(s0, buf[..i]) == Sums(adler, sum2) && Reduced(s0) && Reduced(Sums(adler, sum2))
  }

  lemma TookMore(s0: Sums, buf: seq<byte>, i: nat, k: nat, adler0: nat, sum0: nat, adler: nat, sum2: nat)
    requires Took(s0, buf, i, adler0, sum0) && i <= k <= |buf|
    requires Raw(Sums(adler0, sum0), buf[i..k]) == Sums(adler, sum2)
    ensures Took(s0, buf, k, adler % BASE, sum2 % BASE)
  {
    hide Run, Raw;
    assert buf[..k] == buf[..i] + buf[i..k];
    RunAppend(s0, buf[..i], buf[i..k]);
    LateIsEarly(Sums(adler0, sum0), buf[i..k]);
  }

  lemma TookNothing(s: Sums, buf: seq<byte>, i: nat)
    requires i <= |buf|
    ensures Raw(s, buf[i..i]) == s && Run(s, buf[..0]) == s
  {
  }

  /** while (len >= NMAX): one reduction for NMAX bytes, which are taken 16 at a time. */
  method DoBlock(buf: seq<byte>, i: nat, adler0: U32, sum0: U32, noDivide: bool, ghost s0: Sums)
    returns (adler: U32, sum2: U32)
    requires Took(s0, buf, i, adler0, sum0) && i + NMAX <= |buf|
    ensures Took(s0, buf, i + NMAX, adler, sum2)
  {
    hide Run, Raw;
    adler, sum2 := adler0, sum0;
    ghost var s := Sums(adler0, sum0);
    TookNothing(s, buf, i);
    var k, n := i, NMAX / 16;
    while true
      invariant 0 < n <= 347 && k + 16 * n == i + NMAX && i <= k && Raw(s, buf[i..k]) == Sums(adler, sum2)
      decreases n
    {
      adler, sum2 := DoSome(buf, k, 16, adler, sum2, i, s);
      k := k + 16;
      n := n - 1;
      if n == 0 {
        break;
      }
    }
    TookMore(s0, buf, i, i + NMAX, adler0, sum0, adler, sum2);
    adler := Reduce(adler, noDivide);
    sum2 := Reduce(sum2, noDivide);
  }

  /** The rest, fewer than NMAX bytes. */
  method DoRest(buf: seq<byte>, i: nat, adler0: U32, sum0: U32, noDivide: bool, ghost s0: Sums)
    returns (adler: U32, sum2: U32)
    requires Took(s0, buf, i, adler0, sum0) && i < |buf| < i + NMAX
    ensures Took(s0, buf, |buf|, adler, sum2)
  {
    hide Run, Raw;
    adler, sum2 := adler0, sum0;
    ghost var s := Sums(adler0, sum0);
    TookNothing(s, buf, i);
    var k: nat, len: nat := i, |buf| - i;
    while len >= 16
      invariant k + len == |buf| && i <= k && Raw(s, buf[i..k]) == Sums(adler, sum2)
    {
      len := len - 16;
      adler, sum2 := DoSome(buf, k, 16, adler, sum2, i, s);
      k := k + 16;
    }
    while len != 0
      invariant k + len == |buf| && i <= k && Raw(s, buf[i..k]) == Sums(adler, sum2)
      decreases len
    {
      len := len - 1;
      adler, sum2 := DoSome(buf, k, 1, adler, sum2, i, s);
      k := k + 1;
    }
    TookMore(s0, buf, i, k, adler0, sum0, adler, sum2);
    adler := Reduce(adler, noDivide);
    sum2 := Reduce(sum2, noDivide);
  }

  /** len < 16: no division for the first sum, and a short one for the second. */
  method DoShort(buf: seq<byte>, adler0: U32, sum0: U32, noDivide: bool) returns (adler: U32, sum2: U32)
    requires Reduced(Sums(adler0, sum0)) && |buf| < 16
    ensures Took(Sums(adler0, sum0), buf, |buf|, adler, sum2)
  {
    hide Run, Raw;
    adler, sum2 := adler0, sum0;
    ghost var s := Sums(adler0, sum0);
    TookNothing(s, buf, 0);
    adler, sum2 := DoSome(buf, 0, |buf|, adler, sum2, 0, s);
    TookMore(s, buf, 0, |buf|, adler0, sum0, adler, sum2);
    Small(s, buf, 0, |buf|);
    ShortCap(|buf|);
    if adler >= BASE {
      adler := adler - BASE;
    }
    sum2 := Reduce4(sum2, noDivide);
  }

  lemma ShortCap(n: nat)
    requires n < 16
    ensures Cap(n) < 32 * BASE
  {
    hide Cap;
    CapClosed(n);
    assert n * (n + 1) <= 15 * 16;
  }

  /** One byte, without a loop. */
  lemma OneByte(s: Sums, b: byte)
    requires Reduced(s)
    ensures var a := if s.s1 + b >= BASE then s.s1 + b - BASE else s.s1 + b;
            Run(s, [b]) == Sums(a, if s.s2 + a >= BASE then s.s2 + a - BASE else s.s2 + a)
  {
    hide Step, Run;
    RunOne(s, b);
    StepOnce(s, b);
  }

  lemma RunOne(s: Sums, b: byte)
    ensures Run(s, [b]) == Step(s, b)
  {
    hide Step;
    assert [b][..0] == [];
    assert Run(s, []) == s;
  }

  lemma StepOnce(s: Sums, b: byte)
    requires Reduced(s)
    ensures var a := if s.s1 + b >= BASE then s.s1 + b - BASE else s.s1 + b;
            Step(s, b) == Sums(a, if s.s2 + a >= BASE then s.s2 + a - BASE else s.s2 + a)
  {
    Once(s.s1 + b);
    Once(s.s2 + (s.s1 + b) % BASE);
  }

  lemma Once(x: nat)
    requires x < 2 * BASE
    ensures x % BASE == if x >= BASE then x - BASE else x
  {
  }

  /** adler32: the checksum of section 2.2 of RFC 1950, continued over the buffer; 1 for no buffer. */
  method Update(adler0: U32, buf: Option<seq<byte>>, noDivide: bool) returns (r: U32)
    requires Reduced(Unpack(adler0))
    ensures r == if buf.None? then 1 else Pack(Run(Unpack(adler0), buf.value))
  {
    hide Run, Raw;
    var sum2: U32, adler: U32 := adler0 / 65536 % 65536, adler0 % 65536;
    ghost var s0 := Sums(adler, sum2);
    if buf.Some? && |buf.value| == 1 {
      OneByte(s0, buf.value[0]);
      assert buf.value == [buf.value[0]];
      adler := adler + buf.value[0];
      if adler >= BASE {
        adler := adler - BASE;
      }
      sum2 := sum2 + adler;
      if sum2 >= BASE {
        sum2 := sum2 - BASE;
      }
      return sum2 * 65536 + adler;
    }
    if buf.None? {
      return 1;
    }
    var data := buf.value;
    assert data[..|data|] == data;
    if |data| < 16 {
      adler, sum2 := DoShort(data, adler, sum2, noDivide);
      return sum2 * 65536 + adler;
    }
    TookNothing(s0, data, 0);
    var i: nat := 0;
    while |data| - i >= NMAX
      invariant Took(s0, data, i, adler, sum2)
    {
      adler, sum2 := DoBlock(data, i, adler, sum2, noDivide, s0);
      i := i + NMAX;
    }
    if i != |data| {
      adler, sum2 := DoRest(data, i, adler, sum2, noDivide, s0);
    }
    r := sum2 * 65536 + adler;
  }

  /** The checksum can be taken piece by piece. */
  lemma PieceByPiece(a: seq<byte>, b: seq<byte>)
    ensures Reduced(Unpack(Adler(a))) && Pack(Run(Unpack(Adler(a)), b)) == Adler(a + b)
  {
    hide Run;
    RunReduced(Sums(1, 0), a);
    RunAppend(Sums(1, 0), a, b);
  }

  // ---------- adler32_combine ----------

  /** x and y leave the same remainder. */
  ghost predicate Same(x: int, y: int)
  {
    (x - y) % BASE == 0
  }

  lemma SameProduct(n: nat, a: nat)
    ensures Same(n % BASE * a, n * a)
  {
    var q := n / BASE;
    assert n % BASE * a - n * a == -(q * a) * BASE by {
      assert n == q * BASE + n % BASE;
    }
    MultipleOf(-(q * a));
  }

  lemma MultipleOf(q: int)
    ensures q * BASE % BASE == 0
  {
  }

  lemma ProductFits(rem: nat, a: nat)
    requires rem < BASE && a < BASE
    ensures 0 <= rem * a <= (BASE - 1) * (BASE - 1)
  {
    Product(rem, BASE - 1, a);
  }

  lemma {:induction false} Product(x: nat, y: nat, z: nat)
    requires x <= y
    ensures 0 <= x * z <= y * z
    decreases z
  {
    if z > 0 {
      Product(x, y, z - 1);
      assert x * z == x * (z - 1) + x && y * z == y * (z - 1) + y;
    }
  }

  /** Subtracts BASE as long as the sum is more; at most twice. */
  method FirstSum(a: nat, b: nat) returns (sum1: U32)
    requires a < BASE && b < BASE
    ensures 1 <= sum1 <= BASE && Same(sum1, a + b - 1)
  {
    sum1 := a + b + BASE - 1;
    if sum1 > BASE {
      sum1 := sum1 - BASE;
    }
    if sum1 > BASE {
      sum1 := sum1 - BASE;
    }
  }

  method SecondSum(product: U32, rem: nat, b: nat, ghost exact: int, ghost len: nat) returns (sum2: U32)
    requires product < BASE && rem == len % BASE && b <= 2 * (BASE - 1) && Same(product, exact)
    ensures 1 <= sum2 <= BASE && Same(sum2, b + exact - len)
  {
    hide Same;
    sum2 := product + (b + BASE - rem);
    Shifted(sum2, product, b, exact, len);
    ghost var full := sum2;
    if sum2 > 2 * BASE {
      sum2 := sum2 - 2 * BASE;
    }
    if sum2 > BASE {
      sum2 := sum2 - BASE;
    }
    Fewer(full, sum2, b + exact - len);
  }

  lemma Shifted(sum2: nat, product: nat, b: nat, exact: int, len: nat)
    requires Same(product, exact) && sum2 == product + b + BASE - len % BASE
    ensures Same(sum2, b + exact - len)
  {
    assert sum2 - (b + exact - len) == product - exact + (len / BASE + 1) * BASE;
    ModAdd(product - exact, (len / BASE + 1) * BASE);
    MultipleOf(len / BASE + 1);
  }

  lemma Fewer(full: nat, sum2: nat, z: int)
    requires Same(full, z)
    requires (full == sum2 || full == sum2 + BASE || full == sum2 + 2 * BASE || full == sum2 + 3 * BASE)
    ensures Same(sum2, z)
  {
  }

  /** The number in 1..BASE that leaves the same remainder as x. */
  function Upper(x: int): (r: nat)
    ensures 1 <= r <= BASE && Same(r, x)
  {
    SameRest1(x);
    if x % BASE == 0 then BASE else x % BASE
  }

  lemma SameRest1(x: int)
    ensures Same(x % BASE, x) && (x % BASE == 0 ==> Same(BASE, x))
  {
    ModAdd(x, -x);
  }

  lemma UpperIs(r: nat, x: int)
    requires 1 <= r <= BASE && Same(r, x)
    ensures r == Upper(x)
  {
    hide Same;
    SameRest1(x);
    SameInRange(r, x % BASE, x);
  }

  /** adler32_combine: both halves are in 1..BASE, and leave the right remainders. */
  method Combine(adler1: U32, adler2: U32, len2: nat) returns (r: U32)
    requires Reduced(Unpack(adler1)) && Reduced(Unpack(adler2))
    ensures var a, b := Unpack(adler1), Unpack(adler2);
            Unpack(r) == Sums(Upper(a.s1 + b.s1 - 1), Upper(a.s2 + b.s2 + len2 * a.s1 - len2))
    ensures r == Pack(Unpack(r))
  {
    hide Same;
    var rem: nat := len2 % BASE;
    var sum1: U32 := adler1 % 65536;
    ProductFits(rem, sum1);
    SameProduct(len2, sum1);
    var sum2: U32 := rem * sum1;
    SameRest(sum2, len2 * sum1);
    sum2 := sum2 % BASE;
    sum2 := SecondSum(sum2, rem, adler1 / 65536 % 65536 + adler2 / 65536 % 65536, len2 * sum1, len2);
    UpperIs(sum2, adler1 / 65536 % 65536 + adler2 / 65536 % 65536 + len2 * sum1 - len2);
    ghost var a1 := sum1;
    sum1 := FirstSum(sum1, adler2 % 65536);
    UpperIs(sum1, a1 + adler2 % 65536 - 1);
    r := sum2 * 65536 + sum1;
    Unpacked(Sums(sum1, sum2));
  }

  lemma SameRest(x: nat, y: int)
    requires Same(x, y)
    ensures Same(x % BASE, y)
  {
    ModAdd(x, -y);
  }

  /** Where the sums of the second part started does not matter more than this. */
  lemma {:induction false} RawFrom(a: Sums, buf: seq<byte>)
    requires a.s1 >= 1
    ensures Raw(a, buf).s1 == a.s1 - 1 + Raw(Sums(1, 0), buf).s1
    ensures Raw(a, buf).s2 == a.s2 + |buf| * (a.s1 - 1) + Raw(Sums(1, 0), buf).s2
    decreases |buf|
  {
    if buf != [] {
      RawFrom(a, buf[..|buf| - 1]);
      assert |buf| * (a.s1 - 1) == (|buf| - 1) * (a.s1 - 1) + (a.s1 - 1);
    }
  }

  /** The true sums of the whole. */
  lemma WholeSums(a: seq<byte>, b: seq<byte>)
    ensures var sa, sb, sc := Run(Sums(1, 0), a), Run(Sums(1, 0), b), Run(Sums(1, 0), a + b);
            && Reduced(sa) && Reduced(sb) && Reduced(sc)
            && Same(sc.s1, sa.s1 + sb.s1 - 1) && Same(sc.s2, sa.s2 + sb.s2 + |b| * sa.s1 - |b|)
  {
    hide Run, Raw, Same;
    var one := Sums(1, 0);
    RunReduced(one, a);
    RunReduced(one, b);
    RunReduced(one, a + b);
    RunAppend(one, a, b);
    var sa := Run(one, a);
    FromHere(sa, b);
  }

  /** The sums that a buffer adds to sums it starts from. */
  lemma FromHere(sa: Sums, b: seq<byte>)
    requires Reduced(sa)
    ensures var sb, sc := Run(Sums(1, 0), b), Run(sa, b);
            Same(sc.s1, sa.s1 + sb.s1 - 1) && Same(sc.s2, sa.s2 + sb.s2 + |b| * sa.s1 - |b|)
  {
    hide Run, Raw, Same, Mod;
    var one, up := Sums(1, 0), Sums(sa.s1 + BASE, sa.s2);
    Lifted(sa);
    LateIsEarly(up, b);
    LateIsEarly(one, b);
    RawFrom(up, b);
    assert |b| * (up.s1 - 1) == |b| * sa.s1 - |b| + |b| * BASE;
    ModParts(Raw(up, b), Raw(one, b), sa.s1 - 1, sa.s2 + |b| * sa.s1 - |b|, |b|);
  }

  lemma ModParts(x: Sums, y: Sums, z1: int, z2: int, n: nat)
    requires x.s1 == y.s1 + z1 + BASE && x.s2 == y.s2 + z2 + n * BASE
    ensures Same(Mod(x).s1, Mod(y).s1 + z1) && Same(Mod(x).s2, Mod(y).s2 + z2)
  {
    hide Same;
    SameSum(x.s1, y.s1, z1, 1);
    SameSum(x.s2, y.s2, z2, n);
  }

  lemma Lifted(s: Sums)
    requires Reduced(s)
    ensures Mod(Sums(s.s1 + BASE, s.s2)) == s && Mod(Sums(1, 0)) == Sums(1, 0)
  {
  }

  lemma SameSum(x: nat, y: nat, z: int, q: int)
    requires x == y + z + q * BASE
    ensures Same(x % BASE, y % BASE + z)
  {
    ModAdd(x, -(y % BASE + z));
    ModAdd(y, z + q * BASE - (y % BASE + z));
    assert x - (y % BASE + z) == (y / BASE + q) * BASE;
    MultipleOf(y / BASE + q);
  }

  /**
   adler32_combine of the checksums of two parts: always right modulo BASE in both halves, and the
   checksum of the whole exactly if neither of the two sums, which the caller can compute from the
   arguments, is a multiple of BASE.
   */
  lemma CombinedHalves(a: seq<byte>, b: seq<byte>, r: nat)
    requires var sa, sb := Unpack(Adler(a)), Unpack(Adler(b));
             Unpack(r) == Sums(Upper(sa.s1 + sb.s1 - 1), Upper(sa.s2 + sb.s2 + |b| * sa.s1 - |b|))
    requires r == Pack(Unpack(r))
    ensures var sa, sb, sc := Unpack(Adler(a)), Unpack(Adler(b)), Unpack(Adler(a + b));
            && Unpack(r) == Sums(if sc.s1 == 0 then BASE else sc.s1, if sc.s2 == 0 then BASE else sc.s2)
            && (r == Adler(a + b) <==>
                (sa.s1 + sb.s1 - 1) % BASE != 0 && (sa.s2 + sb.s2 + |b| * sa.s1 - |b|) % BASE != 0)
  {
    hide Run, Same, Upper;
    WholeSums(a, b);
    RunReduced(Sums(1, 0), a);
    RunReduced(Sums(1, 0), b);
    RunReduced(Sums(1, 0), a + b);
    var sa, sb, sc := Unpack(Adler(a)), Unpack(Adler(b)), Unpack(Adler(a + b));
    UpperOf(sc.s1, sa.s1 + sb.s1 - 1);
    UpperOf(sc.s2, sa.s2 + sb.s2 + |b| * sa.s1 - |b|);
  }

  lemma UpperOf(y: nat, x: int)
    requires y < BASE && Same(y, x)
    ensures Upper(x) == (if y == 0 then BASE else y) && (y == 0 <==> x % BASE == 0)
  {
    hide Same;
    SameRest1(x);
    Upper1(x);
    SameInRange(Upper(x), y, x);
    Remainders(y, x);
  }

  lemma Upper1(x: int)
    ensures 1 <= Upper(x) <= BASE && Same(Upper(x), x)
  {
  }

  lemma Remainders(y: nat, x: int)
    requires y < BASE && Same(y, x)
    ensures y == x % BASE
  {
    ModAdd(x, y - x);
    assert (y - x) % BASE == 0;
    assert x + (y - x) == y;
    ModAdd(y - x, x);
  }

  lemma SameInRange(x: nat, y: nat, z: int)
    requires 1 <= x <= BASE && y < BASE && Same(x, z) && Same(y, z)
    ensures x == if y == 0 then BASE else y
  {
  }

  function Full(n: nat): (r: seq<byte>)
    ensures |r| == n
  {
    seq(n, _ => 255)
  }

  lemma {:induction false} FullSum(n: nat)
    requires n <= 256
    ensures Run(Sums(1, 0), Full(n)).s1 == 1 + 255 * n
  {
    if n > 0 {
      FullSum(n - 1);
      assert Full(n)[..n - 1] == Full(n - 1);
    }
  }

  /**
   256 bytes 255 followed by a byte 240: the first half of the checksum is 0, and adler32_combine never gives that.
   */
  lemma CombineFails(r: nat, x: int, y: int)
    requires Unpack(r) == Sums(Upper(x), Upper(y))
    ensures r != Adler(Full(256) + [240])
  {
    hide Full;
    FullSum(256);
    var buf := Full(256) + [240];
    assert buf[..|buf| - 1] == Full(256);
    assert Run(Sums(1, 0), buf).s1 == 0;
    RunReduced(Sums(1, 0), buf);
  }
}
