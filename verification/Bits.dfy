/** Python's bit operators on non-negative integers, bit by bit, and the masks made of them. */
module Bits {

  function And(a: nat, b: nat): nat {
    if a == 0 || b == 0 then 0
    else 2 * And(a / 2, b / 2) + (if a % 2 == 1 && b % 2 == 1 then 1 else 0)
  }

  function Or(a: nat, b: nat): nat {
    if a == 0 then b else if b == 0 then a
    else 2 * Or(a / 2, b / 2) + (if a % 2 == 1 || b % 2 == 1 then 1 else 0)
  }

  function Xor(a: nat, b: nat): nat {
    if a == 0 then b else if b == 0 then a
    else 2 * Xor(a / 2, b / 2) + (if a % 2 != b % 2 then 1 else 0)
  }

  function ShiftRight(a: nat, k: nat): nat {
    if k == 0 then a else ShiftRight(a / 2, k - 1)
  }

  function Pow2(k: nat): (r: nat)
    ensures r > 0
  {
    if k == 0 then 1 else 2 * Pow2(k - 1)
  }

  /** The `k` lowest bits. */
  function Ones(k: nat): nat {
    Pow2(k) - 1
  }

  lemma OnesHalf(k: nat)
    requires k > 0
    ensures Ones(k) == 2 * Ones(k - 1) + 1 && Ones(k) / 2 == Ones(k - 1) && Ones(k) % 2 == 1
  {
  }

  lemma {:induction false} OnesShifted(w: nat, k: nat)
    requires k <= w
    ensures ShiftRight(Ones(w), k) == Ones(w - k)
  {
    if k > 0 {
      OnesHalf(w);
      OnesShifted(w - 1, k - 1);
    }
  }

  lemma {:induction false} XorOnes(w: nat, k: nat)
    requires k <= w
    ensures Pow2(k) <= Pow2(w) && Xor(Ones(w), Ones(k)) == Pow2(w) - Pow2(k)
  {
    if k > 0 {
      XorOnes(w - 1, k - 1);
      OnesHalf(w);
      OnesHalf(k);
    } else {
      assert Ones(k) == 0;
    }
  }

  /** The `w` bits above the `k` lowest. */
  function High(w: nat, k: nat): nat
    requires k <= w
  {
    Xor(Ones(w), Ones(k))
  }

  lemma HighIs(w: nat, k: nat)
    requires k <= w
    ensures High(w, k) == Pow2(w) - Pow2(k)
  {
    XorOnes(w, k);
  }

  lemma HighHalf(w: nat, k: nat)
    requires 0 < k <= w
    ensures High(w, k) == 2 * High(w - 1, k - 1)
  {
    HighIs(w, k);
    HighIs(w - 1, k - 1);
  }

  lemma {:induction false} XorHigh(w: nat, k: nat)
    requires k <= w
    ensures Xor(High(w, k), Ones(w)) == Ones(k)
  {
    HighIs(w, k);
    if w > 0 {
      OnesHalf(w);
      if k > 0 {
        HighHalf(w, k);
        XorHigh(w - 1, k - 1);
        OnesHalf(k);
      } else {
        XorSelf(Ones(w));
      }
    }
  }

  lemma {:induction false} XorSelf(a: nat)
    ensures Xor(a, a) == 0
  {
    if a > 0 {
      XorSelf(a / 2);
    }
  }

  lemma {:induction false} AndOnes(x: nat, w: nat)
    requires x < Pow2(w)
    ensures And(x, Ones(w)) == x
  {
    if x > 0 {
      OnesHalf(w);
      AndOnes(x / 2, w - 1);
    }
  }

  lemma AtLeast(k: int, m: int)
    requires k >= 1 && m > 0
    ensures k * m >= m
  {
  }

  lemma QuotientUnique(m: int, q1: int, r1: int, q2: int, r2: int)
    requires 0 <= r1 < m && 0 <= r2 < m && q1 * m + r1 == q2 * m + r2
    ensures q1 == q2 && r1 == r2
  {
    assert (q1 - q2) * m == r2 - r1;
    if q1 > q2 {
      AtLeast(q1 - q2, m);
    } else if q2 > q1 {
      AtLeast(q2 - q1, m);
    }
  }

  lemma Division(x: int, m: int)
    requires m > 0
    ensures x == x / m * m + x % m && 0 <= x % m < m
  {
  }

  lemma MultipleMod(q: int, m: int, r: int)
    requires 0 <= r < m
    ensures (q * m + r) % m == r && (q * m + r) / m == q
  {
    var x := q * m + r;
    Division(x, m);
    QuotientUnique(m, x / m, x % m, q, r);
  }

  lemma TimesMonotone(k: int, q: int, m: int)
    requires m > 0 && q >= k
    ensures q * m >= k * m
  {
    assert (q - k) * m >= 0;
  }

  lemma HalfMod(x: nat, m: nat)
    requires m > 0
    ensures x % (2 * m) == 2 * (x / 2 % m) + x % 2
  {
    var q, r := x / 2 / m, x / 2 % m;
    Division(x / 2, m);
    assert x == 2 * (q * m + r) + x % 2;
    assert 2 * (q * m) == q * (2 * m);
    MultipleMod(q, 2 * m, 2 * r + x % 2);
  }

  /** Masking with the high bits rounds down to a multiple of 2^k. */
  lemma {:induction false} AndHigh(x: nat, w: nat, k: nat)
    requires k <= w && x < Pow2(w)
    ensures And(x, High(w, k)) == x - x % Pow2(k)
    decreases k
  {
    if k == 0 {
      assert Ones(0) == 0;
      AndOnes(x, w);
    } else {
      HighHalf(w, k);
      AndHigh(x / 2, w - 1, k - 1);
      HalfMod(x, Pow2(k - 1));
      AndEven(x, High(w - 1, k - 1));
    }
  }

  lemma AndEven(x: nat, h: nat)
    ensures And(x, 2 * h) == 2 * And(x / 2, h)
  {
    if x > 0 && h > 0 {
      assert 2 * h / 2 == h;
    }
  }

  /** Adding bits below 2^k to a multiple of 2^k is setting them. */
  lemma {:induction false} OrLow(n: nat, h: nat, k: nat)
    requires n % Pow2(k) == 0 && h < Pow2(k)
    ensures Or(n, h) == n + h
    decreases k
  {
    if n > 0 && h > 0 {
      HalfMod(n, Pow2(k - 1));
      OrLow(n / 2, h / 2, k - 1);
    }
  }
}
