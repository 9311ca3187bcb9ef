/** What a shape is, independently of how tensor_shape.h stores it: dimension sizes, with -1 for "unknown". */
module ShapeSpec {
  import opened Basics
  import opened Bits
  import opened DivMod

  const MAX_INT64: int := 0x7FFF_FFFF_FFFF_FFFF
  const MAX_DIMENSIONS: nat := 254

  type Dims = seq<int>

  /** The number of elements; -1 when a dimension is unknown. */
  function Elements(dims: Dims): (n: int)
    ensures n >= -1
  {
    if dims == [] then 1
    else
      var n, d := Elements(dims[..|dims| - 1]), dims[|dims| - 1];
      if n < 0 || d < 0 then -1 else n * d
  }

  /** Every prefix has a number of elements that an int64 holds. */
  predicate Fits(dims: Dims) {
    Elements(dims) <= MAX_INT64 && (dims == [] || Fits(dims[..|dims| - 1]))
  }

  predicate IsSize(partial: bool, d: int) {
    (if partial then -1 else 0) <= d <= MAX_INT64
  }

  predicate AreSizes(partial: bool, dims: Dims) {
    forall i | 0 <= i < |dims| :: IsSize(partial, dims[i])
  }

  /** The dimensions that a shape of known rank can have. */
  predicate ValidDims(partial: bool, dims: Dims) {
    |dims| <= MAX_DIMENSIONS && AreSizes(partial, dims) && Fits(dims)
  }

  function Product(dims: Dims): int {
    if dims == [] then 1 else Product(dims[..|dims| - 1]) * dims[|dims| - 1]
  }

  lemma {:induction false} ProductNonNegative(dims: Dims)
    requires forall i | 0 <= i < |dims| :: dims[i] >= 0
    ensures Product(dims) >= 0
  {
    if dims != [] {
      ProductNonNegative(dims[..|dims| - 1]);
      TimesNonNegative(Product(dims[..|dims| - 1]), dims[|dims| - 1]);
    }
  }

  lemma TimesNonNegative(a: int, b: int)
    requires a >= 0 && b >= 0
    ensures a * b >= 0
  {}

  /** The number of elements is the product of the sizes, and -1 exactly when some size is unknown. */
  lemma {:induction false} ElementsIsProduct(dims: Dims)
    ensures Elements(dims) == -1 <==> exists i :: 0 <= i < |dims| && dims[i] < 0
    ensures Elements(dims) != -1 ==> Elements(dims) == Product(dims) >= 0
  {
    if dims != [] {
      var front := dims[..|dims| - 1];
      ElementsIsProduct(front);
      assert dims == front + [dims[|dims| - 1]];
      if Elements(front) >= 0 && dims[|dims| - 1] >= 0 {
        TimesNonNegative(Elements(front), dims[|dims| - 1]);
        assert forall i | 0 <= i < |front| :: dims[i] == front[i];
      } else if Elements(front) < 0 {
        var i :| 0 <= i < |front| && front[i] < 0;
        assert dims[i] < 0;
      }
    }
  }

  lemma ElementsSnoc(dims: Dims, d: int)
    ensures Elements(dims + [d]) == if Elements(dims) < 0 || d < 0 then -1 else Elements(dims) * d
    ensures Fits(dims + [d]) <==> Fits(dims) && Elements(dims + [d]) <= MAX_INT64
  {
    assert (dims + [d])[..|dims + [d]| - 1] == dims;
  }

  lemma {:induction false} FitsPrefix(dims: Dims, n: nat)
    requires Fits(dims) && n <= |dims|
    ensures Fits(dims[..n])
  {
    if n == |dims| {
      assert dims[..n] == dims;
    } else {
      FitsPrefix(dims[..|dims| - 1], n);
      assert dims[..|dims| - 1][..n] == dims[..n];
    }
  }

  /** The product of the first n sizes is one that an int64 holds, unless a size before is unknown. */
  predicate PrefixFits(dims: Dims, n: nat)
    requires n <= |dims|
  {
    (exists i :: 0 <= i < n && dims[i] < 0) || Product(dims[..n]) < 0x8000_0000_0000_0000
  }

  lemma {:induction false} FitsMeans(dims: Dims)
    ensures Fits(dims) <==> forall n: nat | n <= |dims| :: PrefixFits(dims, n)
  {
    ElementsIsProduct(dims);
    assert dims[..|dims|] == dims;
    if dims != [] {
      var front := dims[..|dims| - 1];
      FitsMeans(front);
      forall n: nat | n <= |front| ensures PrefixFits(front, n) <==> PrefixFits(dims, n) {
        assert front[..n] == dims[..n];
      }
      assert PrefixFits(dims, |dims|) <==> Elements(dims) <= MAX_INT64;
    } else {
      assert Fits([]) && PrefixFits(dims, 0);
    }
  }

  /** Which dimensions a shape of known rank can have: at most 254, none negative except -1 in a partial shape, and
      products of the sizes, from the left, that an int64 holds. */
  lemma ValidDimsMean(partial: bool, dims: Dims)
    ensures ValidDims(partial, dims) <==>
      && |dims| <= 254
      && (forall i | 0 <= i < |dims| :: (dims[i] >= 0 || (partial && dims[i] == -1)) && dims[i] < 0x8000_0000_0000_0000)
      && (forall n: nat | n <= |dims| :: PrefixFits(dims, n))
  {
    FitsMeans(dims);
  }

  // ---------------------------------------------------------------- the CHECKs

  predicate IsInt64(d: int) {
    -MAX_INT64 - 1 <= d <= MAX_INT64
  }

  lemma PrefixOk(partial: bool, dims: Dims, i: nat)
    requires i < |dims|
    ensures AreSizes(partial, dims[..i + 1]) <==> AreSizes(partial, dims[..i]) && IsSize(partial, dims[i])
    ensures AreSizes(partial, dims) ==> AreSizes(partial, dims[..i + 1])
    ensures Elements(dims[..i + 1]) == if Elements(dims[..i]) < 0 || dims[i] < 0 then -1 else Elements(dims[..i]) * dims[i]
    ensures Fits(dims[..i + 1]) <==> Fits(dims[..i]) && Elements(dims[..i + 1]) <= MAX_INT64
    ensures Fits(dims) ==> Fits(dims[..i + 1])
  {
    assert dims[..i + 1] == dims[..i] + [dims[i]];
    ElementsSnoc(dims[..i], dims[i]);
    if Fits(dims) { FitsPrefix(dims, i + 1); }
    forall j | 0 <= j < i ensures dims[..i][j] == dims[j] == dims[..i + 1][j] {}
    assert dims[..i + 1][i] == dims[i];
  }

  /** AddDim passes its CHECKs; on a partial shape it does not check that a size is at least -1. */
  predicate PassesChecks(partial: bool, rank: nat, numElements: int, size: int) {
    && (!partial ==> size >= 0)
    && rank < MAX_DIMENSIONS
    && ((partial && (numElements < 0 || size < 0)) || numElements * size <= MAX_INT64)
  }

  /** The proto constructor adds every size without a CHECK failure. */
  ghost predicate ConstructorPasses(partial: bool, dims: Dims) {
    forall i | 0 <= i < |dims| :: PassesChecks(partial, i, Elements(dims[..i]), dims[i])
  }

  lemma PassingStep(partial: bool, front: Dims, d: int)
    requires Fits(front) && PassesChecks(partial, |front|, Elements(front), d) && (!partial ==> Elements(front) >= 0)
    ensures Fits(front + [d]) && (!partial ==> Elements(front + [d]) >= 0)
  {
    ElementsSnoc(front, d);
    if !partial { TimesNonNegative(Elements(front), d); }
  }

  lemma {:induction false} PassingFits(partial: bool, dims: Dims)
    requires ConstructorPasses(partial, dims)
    ensures Fits(dims) && |dims| <= MAX_DIMENSIONS
    ensures !partial ==> Elements(dims) >= 0
  {
    if dims != [] {
      hide Fits, Elements;
      var n := |dims| - 1;
      assert dims == dims[..n] + [dims[n]];
      assert PassesChecks(partial, n, Elements(dims[..n]), dims[n]);
      forall i | 0 <= i < n ensures PassesChecks(partial, i, Elements(dims[..n][..i]), dims[..n][i]) {
        assert dims[..n][..i] == dims[..i];
        assert PassesChecks(partial, i, Elements(dims[..i]), dims[i]);
      }
      PassingFits(partial, dims[..n]);
      PassingStep(partial, dims[..n], dims[n]);
    }
  }

  lemma ValidPasses(partial: bool, dims: Dims)
    requires ValidDims(partial, dims)
    ensures ConstructorPasses(partial, dims) && forall i | 0 <= i < |dims| :: IsInt64(dims[i])
  {
    forall i | 0 <= i < |dims| ensures PassesChecks(partial, i, Elements(dims[..i]), dims[i]) && IsInt64(dims[i]) {
      PrefixOk(partial, dims, i);
      if !partial { ElementsIsProduct(dims[..i]); }
    }
  }

  // ---------------------------------------------------------------- overflow.h

  /** (ux | uy) >> 32 != 0 asks whether one of the two needs more than 32 bits. */
  lemma HighBitsOfOr(x: nat, y: nat)
    ensures Or(x, y) / TWO_32 != 0 <==> x >= TWO_32 || y >= TWO_32
  {
    Words();
    hide Or, Pow2;
    OrBelow(x, y, 32);
  }

  lemma QuotientDetectsWrap(x: nat, y: nat, k: nat, wrapped: nat)
    requires x > 0 && x * y == wrapped + TWO_64 * k
    ensures wrapped / x == y <==> k == 0
  {
    var q := wrapped / x;
    assert wrapped == q * x + wrapped % x;
    assert y * x == x * y;
    if k == 0 {
      DivModUnique(wrapped, x, y, 0);
    } else {
      assert q * x < y * x;
    }
  }

  lemma SmallProduct(x: nat, y: nat)
    requires x < TWO_32 && y < TWO_32
    ensures x * y < TWO_64
  {
    TimesNonNegative(x, TWO_32 - 1 - y);
    assert x * (TWO_32 - 1 - y) == x * (TWO_32 - 1) - x * y;
  }

  /** The product of two non-negative int64s, or a negative number if an int64 does not hold it. */
  function MultiplyWithoutOverflow(x: int, y: int): (r: int)
    requires 0 <= x <= MAX_INT64 && 0 <= y <= MAX_INT64
    ensures if x * y <= MAX_INT64 then r == x * y else r < 0
  {
    TimesNonNegative(x, y);
    assert x * y == x * y % TWO_64 + TWO_64 * (x * y / TWO_64);
    var uxy := x * y % TWO_64;
    HighBitsOfOr(x, y);
    if Or(x, y) / TWO_32 != 0 && x != 0 && uxy / x != y then
      QuotientDetectsWrap(x, y, x * y / TWO_64, uxy);
      -1
    else
      assert uxy == x * y by {
        if x >= TWO_32 || y >= TWO_32 {
          if x != 0 { QuotientDetectsWrap(x, y, x * y / TWO_64, uxy); }
        } else {
          SmallProduct(x, y);
        }
      }
      if uxy > MAX_INT64 then uxy - TWO_64 else uxy
  }

  // ---------------------------------------------------------------- few small sizes

  /** InitDims multiplies up to four sizes of at most this without a check. */
  const MAX_SMALL: int := 0xd744

  predicate AreSmall(dims: Dims) {
    forall i | 0 <= i < |dims| :: -1 <= dims[i] <= MAX_SMALL
  }

  /** The largest product of n small sizes. */
  function SmallBound(n: nat): nat
    requires n <= 4
  {
    if n == 0 then 1 else if n == 1 then 0xd744 else if n == 2 then 0xd744 * 0xd744
    else if n == 3 then 0xd744 * 0xd744 * 0xd744 else 0xd744 * 0xd744 * 0xd744 * 0xd744
  }

  lemma SmallProducts(n: int, bound: nat, d: int)
    requires -1 <= n <= bound && -1 <= d <= MAX_SMALL
    ensures n >= 0 && d >= 0 ==> n * d <= bound * MAX_SMALL
  {
    if n >= 0 && d >= 0 {
      MulMonotone(n, bound, d);
      MulMonotone(d, MAX_SMALL, bound);
    }
  }

  lemma {:induction false} SmallFits(dims: Dims)
    requires |dims| <= 4 && AreSmall(dims)
    ensures Fits(dims) && Elements(dims) <= SmallBound(|dims|)
  {
    if dims != [] {
      var n := |dims| - 1;
      SmallFits(dims[..n]);
      assert dims == dims[..n] + [dims[n]];
      ElementsSnoc(dims[..n], dims[n]);
      SmallProducts(Elements(dims[..n]), SmallBound(n), dims[n]);
    }
  }
}
