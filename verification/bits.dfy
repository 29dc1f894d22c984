/** Unbounded bitwise arithmetic, as BigInt does it. Every definition peels one binary digit. */
module Bits {

  function Pow2(k: nat): (r: nat)
    ensures r >= 1
  {
    if k == 0 then 1 else 2 * Pow2(k - 1)
  }

  /** `n << k`. */
  function Shl(n: nat, k: nat): nat {
    if k == 0 then n else 2 * Shl(n, k - 1)
  }

  /** `n >> k`. */
  function Shr(n: nat, k: nat): nat {
    if k == 0 then n else Shr(n / 2, k - 1)
  }

  /** The low `k` bits of `n`. */
  function Low(n: nat, k: nat): nat {
    if k == 0 then 0 else n % 2 + 2 * Low(n / 2, k - 1)
  }

  /** Bit `i` of `n`. */
  function Bit(n: nat, i: nat): nat { Shr(n, i) % 2 }

  /** `a | b`. */
  function Or(a: nat, b: nat): nat
    decreases a + b
  {
    if a == 0 then b
    else if b == 0 then a
    else (if a % 2 == 1 || b % 2 == 1 then 1 else 0) + 2 * Or(a / 2, b / 2)
  }

  /** `a & ~b`. */
  function AndNot(a: nat, b: nat): nat {
    if a == 0 then 0 else (if a % 2 == 1 && b % 2 == 0 then 1 else 0) + 2 * AndNot(a / 2, b / 2)
  }

  lemma {:induction false} Recompose(n: nat, k: nat)
    ensures n == Shl(Shr(n, k), k) + Low(n, k) && Low(n, k) < Pow2(k)
  {
    if k > 0 { Recompose(n / 2, k - 1); }
  }

  lemma {:induction false} ShrShl(a: nat, b: nat, k: nat)
    requires b < Pow2(k)
    ensures Shr(Shl(a, k) + b, k) == a && Low(Shl(a, k) + b, k) == b
  {
    if k > 0 {
      var n := Shl(a, k) + b;
      assert n / 2 == Shl(a, k - 1) + b / 2 && n % 2 == b % 2;
      ShrShl(a, b / 2, k - 1);
    }
  }

  lemma {:induction false} ShrStep(n: nat, k: nat)
    ensures Shr(n, k + 1) == Shr(n, k) / 2
  {
    if k > 0 { ShrStep(n / 2, k - 1); }
  }

  lemma {:induction false} ShlBound(x: nat, m: nat, d: nat, w: nat)
    requires x < Pow2(m) && d < Pow2(w)
    ensures Shl(x, w) + d < Pow2(m + w)
  {
    if w > 0 { ShlBound(x, m, d / 2, w - 1); }
  }

  lemma {:induction false} Pow2Mono(a: nat, b: nat)
    requires a <= b
    ensures Pow2(a) <= Pow2(b)
  {
    if a < b { Pow2Mono(a, b - 1); }
  }

  lemma {:induction false} ShlShl(n: nat, a: nat, b: nat)
    ensures Shl(Shl(n, a), b) == Shl(n, a + b)
  {
    if b > 0 { ShlShl(n, a, b - 1); }
  }

  /** `n & ~(2^k - 1)` clears the low `k` bits. */
  lemma {:induction false} ClearLow(n: nat, k: nat)
    ensures AndNot(n, Pow2(k) - 1) == Shl(Shr(n, k), k)
    decreases k
  {
    if k == 0 {
      ClearNothing(n);
    } else if n > 0 {
      assert (Pow2(k) - 1) / 2 == Pow2(k - 1) - 1 && (Pow2(k) - 1) % 2 == 1;
      ClearLow(n / 2, k - 1);
    } else {
      ZeroStays(k);
    }
  }

  lemma {:induction false} ClearNothing(n: nat)
    ensures AndNot(n, 0) == n
  {
    if n > 0 { ClearNothing(n / 2); }
  }

  lemma {:induction false} ZeroStays(k: nat)
    ensures Shr(0, k) == 0 && Shl(0, k) == 0
  {
    if k > 0 { ZeroStays(k - 1); }
  }

  /** Setting bits that are clear is adding them: `(a << k) | b == (a << k) + b` when `b < 2^k`. */
  lemma {:induction false} OrDisjoint(a: nat, b: nat, k: nat)
    requires b < Pow2(k)
    ensures Or(Shl(a, k), b) == Shl(a, k) + b
    decreases k
  {
    if k > 0 && Shl(a, k) > 0 && b > 0 {
      OrDisjoint(a, b / 2, k - 1);
    }
  }

  /** Two numbers agree on every bit from `k` up exactly when they agree after the shift by `k`. */
  lemma {:induction false} SameTopBits(a: nat, n: nat, k: nat, w: nat)
    requires k <= w && a < Pow2(w) && n < Pow2(w)
    ensures Shr(a, k) == Shr(n, k) <==> forall i :: k <= i < w ==> Bit(a, i) == Bit(n, i)
    decreases w - k
  {
    if k < w {
      SameTopBits(a, n, k + 1, w);
      ShrStep(a, k);
      ShrStep(n, k);
      assert Bit(a, k) == Shr(a, k) % 2 && Bit(n, k) == Shr(n, k) % 2;
    } else {
      SmallShifts(a, w);
      SmallShifts(n, w);
    }
  }

  lemma {:induction false} SmallShifts(n: nat, w: nat)
    requires n < Pow2(w)
    ensures Shr(n, w) == 0
  {
    if w > 0 { SmallShifts(n / 2, w - 1); }
  }

  /** The numbers that shift to `q` are the block of `2^k` from `q << k`. */
  lemma BlockBounds(q: nat, k: nat, a: nat)
    ensures Shl(q, k) <= a <= Shl(q, k) + Pow2(k) - 1 <==> Shr(a, k) == q
  {
    Recompose(a, k);
    if Shl(q, k) <= a <= Shl(q, k) + Pow2(k) - 1 {
      ShrShl(q, a - Shl(q, k), k);
    }
  }

  lemma {:induction false} ShlIsMul(n: nat, k: nat)
    ensures Shl(n, k) == n * Pow2(k)
  {
    if k > 0 {
      ShlIsMul(n, k - 1);
      assert 2 * (n * Pow2(k - 1)) == n * Pow2(k);
    }
  }

  /** Shifting is division: the quotient and remainder by `2^k`. */
  lemma ShiftIsDivision(n: nat, k: nat)
    ensures n / Pow2(k) == Shr(n, k) && n % Pow2(k) == Low(n, k)
  {
    Recompose(n, k);
    ShlIsMul(Shr(n, k), k);
    QuotientUnique(n, Pow2(k), Shr(n, k), Low(n, k));
  }

  lemma MulAtLeast(x: int, d: int)
    requires x >= 1 && d > 0
    ensures x * d >= d
  {
  }

  lemma QuotientUnique(n: int, d: int, q: int, r: int)
    requires d > 0 && 0 <= r < d && n == q * d + r
    ensures n / d == q && n % d == r
  {
    var q', r' := n / d, n % d;
    assert (q - q') * d == q * d - q' * d;
    assert (q' - q) * d == q' * d - q * d;
    if q > q' { MulAtLeast(q - q', d); }
    if q < q' { MulAtLeast(q' - q, d); }
  }
}
