/** Bitwise or and and of unsigned integers, in terms of arithmetic. */
module Bits {
  import opened DivMod

  function Pow2(k: nat): (p: nat)
    ensures p > 0
  {
    if k == 0 then 1 else 2 * Pow2(k - 1)
  }

  function Or(a: nat, b: nat): nat
    decreases a + b
  {
    if a == 0 && b == 0 then 0 else 2 * Or(a / 2, b / 2) + if a % 2 == 1 || b % 2 == 1 then 1 else 0
  }

  lemma {:induction false} OrZero(a: nat)
    ensures Or(a, 0) == a && Or(0, a) == a
  {
    if a != 0 { OrZero(a / 2); }
  }

  /** Or-ing one bit adds it, unless it is set already. */
  lemma {:induction false} OrBit(v: nat, k: nat)
    ensures Or(v, Pow2(k)) == if v / Pow2(k) % 2 == 1 then v else v + Pow2(k)
  {
    if k == 0 {
      OrZero(v / 2);
    } else {
      OrBit(v / 2, k - 1);
      HalfQuotient(v, Pow2(k - 1));
    }
  }

  lemma HalfQuotient(v: nat, p: nat)
    requires p > 0
    ensures v / (2 * p) == v / 2 / p
  {
    DivModSplit(v, p, 2);
    DivModUnique(v / 2, p, v / (p * 2), v % (p * 2) / 2);
  }

  /** Or-ing a number that is shifted past the bits of the other adds it. */
  lemma {:induction false} OrDisjoint(a: nat, c: nat, k: nat)
    requires a < Pow2(k)
    ensures Or(a, c * Pow2(k)) == a + c * Pow2(k)
  {
    if k == 0 {
      OrZero(c);
    } else {
      var p := Pow2(k - 1);
      assert Pow2(k) == 2 * p;
      hide Or, Pow2;
      OrDisjoint(a / 2, c, k - 1);
      Doubled(c, p);
      OrHalves(a, c * p);
    }
  }

  lemma Doubled(c: nat, p: nat)
    ensures c * (2 * p) == 2 * (c * p)
  {}

  lemma OrHalves(a: nat, half: nat)
    requires Or(a / 2, half) == a / 2 + half
    ensures Or(a, 2 * half) == a + 2 * half
  {}

  /** The or of two numbers has as many bits as the longer of them. */
  lemma {:induction false} OrBelow(a: nat, b: nat, k: nat)
    ensures Or(a, b) < Pow2(k) <==> a < Pow2(k) && b < Pow2(k)
  {
    if k == 0 {
      if a != 0 || b != 0 { OrPositive(a, b); }
    } else {
      OrBelow(a / 2, b / 2, k - 1);
    }
  }

  lemma {:induction false} OrPositive(a: nat, b: nat)
    requires a != 0 || b != 0
    ensures Or(a, b) > 0
  {
    if a / 2 != 0 || b / 2 != 0 { OrPositive(a / 2, b / 2); }
  }

  function And(a: nat, b: nat): nat {
    if a == 0 || b == 0 then 0 else 2 * And(a / 2, b / 2) + if a % 2 == 1 && b % 2 == 1 then 1 else 0
  }

  lemma {:induction false} AndAll(a: nat, w: nat)
    requires a < Pow2(w)
    ensures And(a, Pow2(w) - 1) == a
  {
    if w > 0 && a > 0 {
      AndAll(a / 2, w - 1);
      assert (Pow2(w) - 1) / 2 == Pow2(w - 1) - 1 && (Pow2(w) - 1) % 2 == 1;
    }
  }

  /** A mask whose k lowest bits are 0 rounds a number of w bits down. */
  lemma {:induction false} AndMask(a: nat, k: nat, w: nat)
    requires a < Pow2(w) && k <= w
    ensures Pow2(k) <= Pow2(w) && And(a, Pow2(w) - Pow2(k)) == a / Pow2(k) * Pow2(k)
  {
    if k == 0 {
      AndAll(a, w);
    } else {
      var p := Pow2(k - 1);
      AndMask(a / 2, k - 1, w - 1);
      AndEven(a, Pow2(w - 1) - p);
      HalfQuotient(a, p);
      Doubled(a / 2 / p, p);
    }
  }

  lemma AndEven(a: nat, b: nat)
    ensures And(a, 2 * b) == 2 * And(a / 2, b)
  {}

  lemma {:induction false} Pow2Sum(j: nat, k: nat)
    ensures Pow2(j + k) == Pow2(j) * Pow2(k)
  {
    if j > 0 {
      Pow2Sum(j - 1, k);
      MulAssociative(2, Pow2(j - 1), Pow2(k));
    }
  }

  /** The same in words of w bits: what is shifted out is lost. */
  lemma OrShifted(a: nat, d: nat, k: nat, w: nat)
    requires a < Pow2(k) && k <= w
    ensures Or(a % Pow2(w), d * Pow2(k) % Pow2(w)) == (a + d * Pow2(k)) % Pow2(w)
  {
    var scale, m, word := Pow2(k), Pow2(w - k), Pow2(w);
    Pow2Sum(w - k, k);
    ShiftedOut(a, d, scale, m);
    OrDisjoint(a, d % m, k);
  }

  lemma ShiftedOut(a: nat, d: nat, scale: nat, m: nat)
    requires a < scale && m > 0
    ensures var word := m * scale;
      word > 0 && a % word == a && d * scale % word == d % m * scale && (a + d * scale) % word == a + d % m * scale
  {
    MulPositive(m, scale);
    var q, r, word := d / m, d % m, m * scale;
    assert d * scale == q * word + r * scale by {
      assert d == q * m + r;
      MulAssociative(q, m, scale);
      Distribute(q * m, r, scale);
    }
    var t := r * scale;
    assert t + scale <= word by {
      MulMonotone(r + 1, m, scale);
      Distribute(r, 1, scale);
    }
    hide *;
    DivModUnique(d * scale, word, q, t);
    DivModUnique(a + d * scale, word, q, a + t);
    DivModUnique(a, word, 0, a);
  }

  lemma Distribute(a: nat, b: nat, c: nat)
    ensures (a + b) * c == a * c + b * c
  {}

  lemma Words()
    ensures Pow2(7) == 128 && Pow2(32) == 0x1_0000_0000 && Pow2(64) == 0x1_0000_0000_0000_0000
  {
    assert Pow2(7) == 128 && Pow2(8) == 256;
    Pow2Sum(8, 8);
    Pow2Sum(16, 16);
    Pow2Sum(32, 32);
  }
}
