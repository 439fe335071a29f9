/** Bit operations of C on non-negative numbers, and what masks of consecutive bits do. */
module Bits {
  function Pow2(n: nat): (p: nat)
    ensures p > 0
  {
    if n == 0 then 1 else 2 * Pow2(n - 1)
  }

  function BitAnd(a: nat, b: nat): nat {
    if a == 0 || b == 0 then 0 else 2 * BitAnd(a / 2, b / 2) + (if a % 2 == 1 && b % 2 == 1 then 1 else 0)
  }

  function BitOr(a: nat, b: nat): nat
    decreases a + b
  {
    if a == 0 then b
    else if b == 0 then a
    else 2 * BitOr(a / 2, b / 2) + (if a % 2 == 1 || b % 2 == 1 then 1 else 0)
  }

  function BitXor(a: nat, b: nat): nat
    decreases a + b
  {
    if a == 0 then b
    else if b == 0 then a
    else 2 * BitXor(a / 2, b / 2) + (if a % 2 != b % 2 then 1 else 0)
  }

  lemma {:induction false} Pow2Add(m: nat, n: nat)
    ensures Pow2(m + n) == Pow2(m) * Pow2(n)
  {
    if m > 0 {
      Pow2Add(m - 1, n);
    }
  }

  lemma {:induction false} Pow2Mono(m: nat, n: nat)
    requires m <= n
    ensures Pow2(m) <= Pow2(n)
  {
    if m < n {
      Pow2Mono(m, n - 1);
    }
  }

  /** A division is determined by its result. */
  lemma DivUnique(a: nat, d: nat, q: nat, r: nat)
    requires d > 0 && a == q * d + r && r < d
    ensures a / d == q && a % d == r
  {
    var q', r' := a / d, a % d;
    var k: int, e: int := q - q', d;
    assert a == q' * d + r';
    assert k * e == r' - r;
    assert k >= 1 ==> k * e >= e;
    assert k <= -1 ==> k * e <= -e;
  }

  /** The `r` lowest bits. */
  function Low(a: nat, r: nat): nat {
    if r == 0 then 0 else 2 * Low(a / 2, r - 1) + a % 2
  }

  lemma {:induction false} LowSplit(a: nat, r: nat) returns (q: nat)
    ensures a == q * Pow2(r) + Low(a, r) && Low(a, r) < Pow2(r)
  {
    if r == 0 {
      q := a;
    } else {
      q := LowSplit(a / 2, r - 1);
      Regroup(q, Pow2(r - 1));
    }
  }

  lemma Regroup(q: nat, p: nat)
    ensures q * (2 * p) == 2 * (q * p)
  {
  }

  lemma LowIsMod(a: nat, r: nat)
    ensures Low(a, r) == a % Pow2(r)
  {
    var q := LowSplit(a, r);
    DivUnique(a, Pow2(r), q, Low(a, r));
  }

  lemma {:induction false} LowAll(a: nat, r: nat)
    requires a < Pow2(r)
    ensures Low(a, r) == a
  {
    if r > 0 {
      LowAll(a / 2, r - 1);
    }
  }

  lemma XorStep(a: nat, b: nat, h: nat, k: nat)
    requires a == 2 * h + 1 && b == 2 * k + b % 2
    ensures BitXor(a, b) == 2 * BitXor(h, k) + 1 - b % 2
  {
    assert a / 2 == h && b / 2 == k;
    XorNothing(h);
  }

  lemma XorNothing(a: nat)
    ensures BitXor(a, 0) == a && BitXor(0, a) == a
  {
  }

  /** All ones but the `r` lowest of `n` bits. */
  lemma {:induction false} HighMask(n: nat, r: nat)
    requires r <= n
    ensures Pow2(r) <= Pow2(n)
    ensures BitXor(Pow2(n) - 1, Pow2(r) - 1) == Pow2(n) - Pow2(r)
  {
    hide BitXor;
    Pow2Mono(r, n);
    XorNothing(Pow2(n) - 1);
    if r > 0 {
      HighMask(n - 1, r - 1);
      XorStep(Pow2(n) - 1, Pow2(r) - 1, Pow2(n - 1) - 1, Pow2(r - 1) - 1);
    }
  }

  lemma AndStep(a: nat, m: nat, h: nat)
    requires m == 2 * h + m % 2
    ensures BitAnd(a, m) == 2 * BitAnd(a / 2, h) + (if a % 2 == 1 && m % 2 == 1 then 1 else 0)
  {
  }

  lemma AndZero(a: nat)
    ensures BitAnd(0, a) == 0 && BitAnd(a, 0) == 0
  {
  }

  lemma {:induction false} AndHighLow(a: nat, n: nat, r: nat)
    requires a < Pow2(n) && r <= n
    ensures Pow2(r) <= Pow2(n) && BitAnd(a, Pow2(n) - Pow2(r)) == a - Low(a, r)
  {
    hide BitAnd;
    Pow2Mono(r, n);
    AndZero(a);
    if r == n {
      LowAll(a, r);
      return;
    }
    var r' := if r == 0 then 0 else r - 1;
    Pow2Mono(r', n - 1);
    AndHighLow(a / 2, n - 1, r');
    AndStep(a, Pow2(n) - Pow2(r), Pow2(n - 1) - Pow2(r'));
  }

  /** Masking with high ones clears the `r` lowest bits. */
  lemma AndHighMask(a: nat, n: nat, r: nat)
    requires a < Pow2(n) && r <= n
    ensures Pow2(r) <= Pow2(n)
    ensures BitAnd(a, Pow2(n) - Pow2(r)) == a - a % Pow2(r)
  {
    AndHighLow(a, n, r);
    LowIsMod(a, r);
  }

  lemma {:induction false} OrLow(a: nat, r: nat)
    ensures BitOr(a, Pow2(r) - 1) == a - Low(a, r) + Pow2(r) - 1
  {
    if r > 0 {
      OrLow(a / 2, r - 1);
      if a == 0 {
        LowAll(0, r);
      } else {
        assert (Pow2(r) - 1) / 2 == Pow2(r - 1) - 1;
      }
    }
  }

  /** Setting the `r` lowest bits. */
  lemma OrLowMask(a: nat, r: nat)
    ensures BitOr(a, Pow2(r) - 1) == a - a % Pow2(r) + Pow2(r) - 1
  {
    OrLow(a, r);
    LowIsMod(a, r);
  }
}
