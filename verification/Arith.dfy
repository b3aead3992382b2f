/** Division, powers of two and bit operations on natural numbers. */
module Arith {
  lemma {:induction false} MultiplesApart(a: int, q: int, k: nat)
    requires a > q
    ensures a * k >= q * k + k
    decreases a - q
  {
    assert a * k == (a - 1) * k + k;
    if a > q + 1 {
      MultiplesApart(a - 1, q, k);
    }
  }

  /** Quotient and remainder are determined by their defining equation. */
  lemma DivIs(n: nat, k: nat, q: int, r: nat)
    requires r < k && n == q * k + r
    ensures n / k == q && n % k == r
  {
    var a, b := n / k, n % k;
    assert n == a * k + b;
    if a > q {
      MultiplesApart(a, q, k);
    } else if a < q {
      MultiplesApart(q, a, k);
    }
  }

  function Pow2(k: nat): (p: nat)
    ensures p > 0
  {
    if k == 0 then 1 else 2 * Pow2(k - 1)
  }

  lemma {:induction false} Pow2Add(a: nat, b: nat)
    ensures Pow2(a + b) == Pow2(a) * Pow2(b)
  {
    if a > 0 {
      Pow2Add(a - 1, b);
      assert Pow2(a + b) == 2 * Pow2(a - 1 + b);
      assert 2 * (Pow2(a - 1) * Pow2(b)) == (2 * Pow2(a - 1)) * Pow2(b);
    }
  }

  lemma {:induction false} Pow2Mono(a: nat, b: nat)
    requires a <= b
    ensures Pow2(a) <= Pow2(b)
  {
    if a < b {
      Pow2Mono(a, b - 1);
    }
  }

  /** Bitwise or. */
  function BitOr(a: nat, b: nat): nat
    decreases a
  {
    if a == 0 then b
    else 2 * BitOr(a / 2, b / 2) + (if a % 2 == 1 || b % 2 == 1 then 1 else 0)
  }

  /** Bitwise and. */
  function BitAnd(a: nat, b: nat): nat
    decreases a
  {
    if a == 0 then 0
    else 2 * BitAnd(a / 2, b / 2) + (if a % 2 == 1 && b % 2 == 1 then 1 else 0)
  }

  lemma {:induction false} OrZero(a: nat)
    ensures BitOr(a, 0) == a
  {
    if a > 0 {
      OrZero(a / 2);
    }
  }

  /** Or of fields that do not overlap is their sum. */
  lemma {:induction false} OrIsSum(x: nat, y: nat, k: nat)
    requires y < Pow2(k)
    ensures BitOr(x * Pow2(k), y) == x * Pow2(k) + y
    decreases k
  {
    if k == 0 {
      OrZero(x);
    } else if x > 0 {
      var a := x * Pow2(k);
      var h := x * Pow2(k - 1);
      assert a == 2 * h;
      MultiplesApart(x, 0, Pow2(k));
      OrIsSum(x, y / 2, k - 1);
      assert BitOr(a, y) == 2 * BitOr(h, y / 2) + y % 2;
    }
  }

  lemma DoubleMod(a: nat, p: nat)
    requires p > 0
    ensures a % (2 * p) == 2 * ((a / 2) % p) + a % 2
  {
    var h := a / 2;
    var q, r := h / p, h % p;
    assert h == q * p + r;
    assert a == 2 * h + a % 2;
    assert q * (2 * p) == 2 * (q * p);
    DivIs(a, 2 * p, q, 2 * r + a % 2);
  }

  lemma MaskStep(a: nat, p: nat)
    requires a > 0 && p > 0
    ensures BitAnd(a, 2 * p - 1) == 2 * BitAnd(a / 2, p - 1) + a % 2
  {
    assert (2 * p - 1) / 2 == p - 1 && (2 * p - 1) % 2 == 1;
  }

  /** A mask of k ones keeps the remainder modulo 2 to the k. */
  lemma {:induction false} AndMask(a: nat, k: nat)
    ensures BitAnd(a, Pow2(k) - 1) == a % Pow2(k)
    decreases k
  {
    if k == 0 {
      AndZero(a);
    } else if a > 0 {
      AndMask(a / 2, k - 1);
      MaskStep(a, Pow2(k - 1));
      DoubleMod(a, Pow2(k - 1));
    } else {
      DivIs(0, Pow2(k), 0, 0);
    }
  }

  lemma {:induction false} AndZero(a: nat)
    ensures BitAnd(a, 0) == 0
  {
    if a > 0 {
      AndZero(a / 2);
    }
  }
}
