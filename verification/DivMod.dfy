/** Facts about Euclidean division that the mixed-radix and byte-order proofs share. */
module DivMod {

  lemma DivModUnique(a: int, d: int, q: int, r: int)
    requires d > 0 && 0 <= r < d && a == q * d + r
    ensures a / d == q && a % d == r
  {
    var k := a / d - q;
    assert a == (a / d) * d + a % d;
    assert k * d == r - a % d;
    assert k > 0 ==> k * d >= d;
    assert k < 0 ==> k * d <= -d;
  }

  /** Dividing by n and then by m is dividing by m * n; the two remainders recombine. */
  lemma DivModSplit(a: nat, m: nat, n: nat)
    requires m > 0 && n > 0
    ensures m * n > 0
    ensures a / n == (a / (m * n)) * m + a % (m * n) / n
    ensures a % (m * n) % n == a % n
    ensures 0 <= a % (m * n) / n < m
  {
    var p := m * n;
    var q, r := a / p, a % p;
    var s, t := r / n, r % n;
    assert a == q * p + r && r == s * n + t;
    assert q * p == (q * m) * n;
    assert a == (q * m + s) * n + t by {
      assert (q * m + s) * n == (q * m) * n + s * n;
    }
    DivModUnique(a, n, q * m + s, t);
    assert s >= m ==> s * n >= m * n;
  }

  lemma DivBound(a: nat, m: nat, n: nat)
    requires n > 0 && a < m * n
    ensures 0 <= a / n < m
  {
    var q := a / n;
    assert q >= m ==> q * n >= m * n;
  }

  /** Quotient and remainder of a position a among m rows of n. */
  lemma DivModOf(a: nat, m: nat, n: nat) returns (q: nat, r: nat)
    requires a < m * n
    ensures n > 0 && q == a / n < m && r == a % n < n && q * n + r == a
  {
    MulPositive(m, n);
    DivBound(a, m, n);
    q, r := a / n, a % n;
  }

  lemma MulPositive(a: nat, b: nat)
    ensures a * b > 0 <==> a > 0 && b > 0
  {}

  lemma MulAssociative(a: int, b: int, c: int)
    ensures a * b * c == a * (b * c)
  {}

  lemma MulMonotone(a: nat, b: nat, c: nat)
    requires a <= b
    ensures a * c <= b * c
  {}

  lemma BlockStep(o: nat, n: nat, incr: nat)
    requires 0 < n <= o
    ensures o % n == (o - n) % n
    ensures (o / n) * incr == ((o - n) / n) * incr + incr
  {
    var q := (o - n) / n;
    DivModUnique(o, n, q + 1, (o - n) % n);
    assert (q + 1) * incr == q * incr + incr;
  }

  /** Along a repeated axis of input size 1, and along a kept axis, taking the coordinate modulo the
      input size is the same as stepping once per block. */
  lemma WrappedCoordinate(a: nat, b: nat, n: nat, stride: nat, o: nat)
    requires n > 0 && a > 0 && (a == 1 || b == 1) && o < a * b * n
    ensures (o / n % a) * stride == (o / n) * (if b > 1 then 0 else stride)
  {
    DivBound(o, a * b, n);
    var q := o / n;
    if b > 1 {
      DivModUnique(q, 1, q, 0);
    } else {
      assert b == 0 || b == 1;
      MulPositive(a * b, n);
      DivModUnique(q, a, 0, q);
    }
  }

  lemma BlockCount(a: nat, b: nat, n: nat, d: nat)
    requires a * b * n > 0 && (a == 1 || b == 1)
    requires d == if a < b then b else a
    ensures a > 0 && d == a * b && n > 0
    ensures 0 <= (d - 1) * n == d * n - n
    ensures n * d == d * n == a * b * n
  {
    MulPositive(a * b, n);
    MulPositive(a, b);
    assert (d - 1) * n == d * n - n;
    MulMonotone(1, d, n);
  }

  lemma FirstBlock(o: nat, n: nat, incr: nat)
    requires o < n
    ensures o % n == o && (o / n) * incr == 0
  {
    DivModUnique(o, n, 0, o);
  }
}
