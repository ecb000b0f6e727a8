/**
 Shifts and masks on unbounded naturals, defined one bit at a time. Shl, Shr and Low are the
 operators <<, >> and & ((1 << n) - 1) of the C code, as long as no bit falls off its word.
 */
module Shift {

  function Pow2(n: nat): (p: nat)
    ensures p >= 1
  {
    if n == 0 then 1 else 2 * Pow2(n - 1)
  }

  function Shl(x: int, n: nat): (r: int)
    ensures x >= 0 ==> r >= x
  {
    if n == 0 then x else 2 * Shl(x, n - 1)
  }

  function Shr(v: nat, n: nat): (r: nat)
    ensures r <= v
  {
    if n == 0 then v else Shr(v / 2, n - 1)
  }

  function Low(v: nat, n: nat): (r: nat)
    ensures r < Pow2(n) && r <= v
  {
    if n == 0 then 0 else v % 2 + 2 * Low(v / 2, n - 1)
  }

  lemma {:induction false} ShlAdd(x: int, y: int, n: nat)
    ensures Shl(x + y, n) == Shl(x, n) + Shl(y, n)
  {
    if n > 0 {
      ShlAdd(x, y, n - 1);
    }
  }

  lemma {:induction false} ShlShl(x: int, m: nat, n: nat)
    ensures Shl(Shl(x, m), n) == Shl(x, m + n)
  {
    if n > 0 {
      ShlShl(x, m, n - 1);
    }
  }

  lemma {:induction false} ShlOne(n: nat)
    ensures Shl(1, n) == Pow2(n) && Shl(0, n) == 0
  {
    if n > 0 {
      ShlOne(n - 1);
    }
  }

  lemma {:induction false} ShlPow2(m: nat, n: nat)
    ensures Shl(Pow2(m), n) == Pow2(m + n)
  {
    if n > 0 {
      ShlPow2(m, n - 1);
    }
  }

  lemma {:induction false} Pow2Monotone(m: nat, n: nat)
    requires m <= n
    ensures Pow2(m) <= Pow2(n)
  {
    if m < n {
      Pow2Monotone(m, n - 1);
    }
  }

  lemma {:induction false} ShlLe(x: int, y: int, n: nat)
    requires x <= y
    ensures Shl(x, n) <= Shl(y, n)
  {
    if n > 0 {
      ShlLe(x, y, n - 1);
    }
  }

  lemma ShlLess(x: int, y: int, n: nat)
    requires x < y
    ensures Shl(x, n) + Pow2(n) <= Shl(y, n)
  {
    ShlAdd(x, 1, n);
    ShlOne(n);
    ShlLe(x + 1, y, n);
  }

  lemma ShlCancel(x: int, y: int, n: nat)
    requires Shl(x, n) <= Shl(y, n)
    ensures x <= y
  {
    if x > y {
      ShlLess(y, x, n);
    }
  }

  /** The two halves of v at bit n. */
  lemma {:induction false} Split(v: nat, n: nat)
    ensures v == Shl(Shr(v, n), n) + Low(v, n)
  {
    if n > 0 {
      Split(v / 2, n - 1);
    }
  }

  lemma {:induction false} Join(a: nat, b: nat, n: nat)
    requires b < Pow2(n)
    ensures Shr(Shl(a, n) + b, n) == a && Low(Shl(a, n) + b, n) == b
  {
    if n > 0 {
      assert (Shl(a, n) + b) / 2 == Shl(a, n - 1) + b / 2;
      Join(a, b / 2, n - 1);
    }
  }

  lemma Small(v: nat, n: nat)
    requires v < Pow2(n)
    ensures Shr(v, n) == 0 && Low(v, n) == v
  {
    ShlOne(n);
    Join(0, v, n);
  }

  lemma ShrBound(v: nat, m: nat, n: nat)
    requires v < Pow2(m + n)
    ensures Shr(v, n) < Pow2(m)
  {
    Split(v, n);
    if Shr(v, n) >= Pow2(m) {
      ShlPow2(m, n);
      ShlLe(Pow2(m), Shr(v, n), n);
    }
  }

  lemma ShrBetween(v: nat, n: nat, lo: nat, hi: nat)
    requires Shl(lo, n) <= v < Shl(hi, n)
    ensures lo <= Shr(v, n) < hi
  {
    Split(v, n);
    if Shr(v, n) < lo {
      ShlLess(Shr(v, n), lo, n);
    }
    if Shr(v, n) >= hi {
      ShlLe(hi, Shr(v, n), n);
    }
  }

  lemma {:induction false} ShrShr(v: nat, m: nat, n: nat)
    ensures Shr(Shr(v, m), n) == Shr(v, m + n)
  {
    if m > 0 {
      ShrShr(v / 2, m - 1, n);
    }
  }

  lemma {:induction false} LowLow(v: nat, m: nat, n: nat)
    requires m <= n
    ensures Low(Low(v, n), m) == Low(v, m)
  {
    if m > 0 {
      assert Low(v, n) / 2 == Low(v / 2, n - 1);
      LowLow(v / 2, m - 1, n - 1);
    }
  }

  lemma {:induction false} LowShr(v: nat, m: nat, n: nat)
    ensures Low(Shr(v, m), n) == Shr(Low(v, m + n), m)
  {
    if m > 0 {
      assert Low(v, m + n) / 2 == Low(v / 2, m + n - 1);
      LowShr(v / 2, m - 1, n);
    }
  }

  lemma {:induction false} ShlIsTimes(x: int, n: nat)
    ensures Shl(x, n) == x * Pow2(n)
  {
    if n > 0 {
      ShlIsTimes(x, n - 1);
    }
  }

  lemma MulLe(a: int, b: int, c: nat)
    requires a <= b
    ensures a * c <= b * c
  {
  }

  lemma DivModUnique(a: int, d: int, r: int)
    requires d > 0 && 0 <= r < d
    ensures (a * d + r) / d == a && (a * d + r) % d == r
  {
    var x := a * d + r;
    var q, m := x / d, x % d;
    assert x == q * d + m;
    if q > a {
      MulLe(a + 1, q, d);
      assert false;
    } else if q < a {
      MulLe(q + 1, a, d);
      assert false;
    }
  }
}
