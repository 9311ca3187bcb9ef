/**
 * The meaning of broadcasting, written without any of the helper vectors that BCastList computes:
 * row-major positions, the NumPy rule on coordinates, and what reshaping followed by tiling reads.
 * Shapes are listed outer-most dimension first.
 */
module BroadcastRule {
  import opened DivMod

  type Shape = seq<nat>

  function Product(s: Shape): nat {
    if s == [] then 1 else s[0] * Product(s[1..])
  }

  /** The coordinates of row-major position `o` in a tensor of shape `s`. */
  function Unravel(s: Shape, o: nat): (c: seq<nat>)
    ensures |c| == |s|
  {
    if s == [] then []
    else
      var inner := Product(s[1..]);
      if inner == 0 then [0] + Unravel(s[1..], 0) else [o / inner] + Unravel(s[1..], o % inner)
  }

  /** The row-major position of coordinates `c`: the sum of coordinate times stride. */
  function Ravel(s: Shape, c: seq<nat>): nat
    requires |c| == |s|
  {
    if s == [] then 0 else c[0] * Product(s[1..]) + Ravel(s[1..], c[1..])
  }

  /** The NumPy rule: along an axis of size 1 every output coordinate reads input coordinate 0. */
  function Project(input: Shape, c: seq<nat>): (p: seq<nat>)
    requires |c| == |input|
    ensures |p| == |input|
  {
    if input == [] then []
    else [if input[0] == 1 then 0 else c[0]] + Project(input[1..], c[1..])
  }

  /** The input position read for output position `o`, both shapes 1-extended to the same rank. */
  function BroadcastIndex(input: Shape, output: Shape, o: nat): nat
    requires |input| == |output|
  {
    Ravel(input, Project(input, Unravel(output, o)))
  }

  /** The shape of x.reshape(reshape).broadcast(bcast): each axis is repeated bcast times. */
  function Tiled(reshape: Shape, bcast: Shape): (t: Shape)
    requires |reshape| == |bcast|
    ensures |t| == |reshape|
  {
    if reshape == [] then [] else [reshape[0] * bcast[0]] + Tiled(reshape[1..], bcast[1..])
  }

  lemma {:induction false} TiledAt(reshape: Shape, bcast: Shape)
    requires |reshape| == |bcast|
    ensures forall k | 0 <= k < |reshape| :: Tiled(reshape, bcast)[k] == reshape[k] * bcast[k]
  {
    if reshape != [] {
      TiledAt(reshape[1..], bcast[1..]);
    }
  }

  /** Tiling wraps every coordinate around the axis it repeats. */
  function Wrap(s: Shape, c: seq<nat>): (w: seq<nat>)
    requires |c| == |s|
    ensures |w| == |s|
  {
    if s == [] then [] else [if s[0] == 0 then 0 else c[0] % s[0]] + Wrap(s[1..], c[1..])
  }

  /** The element of x read at position `o` of x.reshape(reshape).broadcast(bcast). */
  function TileIndex(reshape: Shape, bcast: Shape, o: nat): nat
    requires |reshape| == |bcast|
  {
    Ravel(reshape, Wrap(reshape, Unravel(Tiled(reshape, bcast), o)))
  }

  /** Suffix matching: missing outer dimensions count as 1. */
  function Align(s: Shape, rank: nat): (a: Shape)
    ensures |a| == if |s| < rank then rank else |s|
  {
    if |s| >= rank then s else seq(rank - |s|, _ => 1) + s
  }

  ghost predicate AgreeAt(xs: seq<Shape>, k: nat)
    requires forall i | 0 <= i < |xs| :: k < |xs[i]|
  {
    forall i, j | 0 <= i < |xs| && 0 <= j < |xs| :: xs[i][k] == 1 || xs[j][k] == 1 || xs[i][k] == xs[j][k]
  }

  ghost predicate SameRank(xs: seq<Shape>, rank: nat) {
    forall i | 0 <= i < |xs| :: |xs[i]| == rank
  }

  /** Two dimensions are compatible when they are equal or one of them is 1. */
  ghost predicate Compatible(xs: seq<Shape>, rank: nat)
    requires SameRank(xs, rank)
  {
    forall k | 0 <= k < rank :: AgreeAt(xs, k)
  }

  /** The one size of an axis that differs from 1, or 1 when there is none. */
  ghost predicate IsOutputDim(xs: seq<Shape>, k: nat, d: nat)
    requires forall i | 0 <= i < |xs| :: k < |xs[i]|
  {
    && (forall i | 0 <= i < |xs| :: xs[i][k] == 1 || xs[i][k] == d)
    && (d == 1 || exists i | 0 <= i < |xs| :: xs[i][k] == d)
  }

  ghost predicate IsBroadcastShape(xs: seq<Shape>, output: Shape)
    requires SameRank(xs, |output|)
  {
    forall k | 0 <= k < |output| :: IsOutputDim(xs, k, output[k])
  }

  // ---------------------------------------------------------------- products and positions

  lemma ProductCons(d: nat, s: Shape)
    ensures Product([d] + s) == d * Product(s)
  {
    assert ([d] + s)[1..] == s;
  }

  lemma {:induction false} ProductPositive(s: Shape)
    ensures Product(s) > 0 <==> forall k | 0 <= k < |s| :: s[k] > 0
  {
    if s != [] {
      ProductPositive(s[1..]);
      MulPositive(s[0], Product(s[1..]));
      assert forall k | 1 <= k < |s| :: s[k] == s[1..][k - 1];
      assert forall k | 0 <= k < |s[1..]| :: s[1..][k] == s[k + 1];
    }
  }

  ghost predicate InShape(s: Shape, c: seq<nat>)
  {
    |c| == |s| && forall k | 0 <= k < |s| :: c[k] < s[k]
  }

  /** Coordinates of a position inside the tensor are inside the shape, and lead back to it. */
  lemma {:induction false} UnravelRavel(s: Shape, o: nat)
    requires o < Product(s)
    ensures InShape(s, Unravel(s, o))
    ensures Ravel(s, Unravel(s, o)) == o
  {
    if s != [] {
      var inner := Product(s[1..]);
      var q, r := DivModOf(o, s[0], inner);
      UnravelRavel(s[1..], r);
      assert Unravel(s, o) == [q] + Unravel(s[1..], r);
    }
  }

  /** Coordinates inside the shape give a position inside the tensor, and are found again there. */
  lemma {:induction false} RavelUnravel(s: Shape, c: seq<nat>)
    requires InShape(s, c)
    ensures Ravel(s, c) < Product(s)
    ensures Unravel(s, Ravel(s, c)) == c
  {
    if s != [] {
      var inner := Product(s[1..]);
      RavelUnravel(s[1..], c[1..]);
      var r := Ravel(s[1..], c[1..]);
      MulMonotone(c[0] + 1, s[0], inner);
      assert (c[0] + 1) * inner == c[0] * inner + inner;
      DivModUnique(c[0] * inner + r, inner, c[0], r);
      assert [c[0]] + c[1..] == c;
    }
  }

  lemma {:induction false} ProjectInShape(input: Shape, output: Shape, c: seq<nat>)
    requires |input| == |output| && InShape(output, c)
    requires forall k | 0 <= k < |input| :: input[k] == 1 || input[k] == output[k]
    ensures InShape(input, Project(input, c))
  {
    if input != [] {
      ProjectInShape(input[1..], output[1..], c[1..]);
    }
  }

  lemma {:induction false} WrapInShape(s: Shape, c: seq<nat>)
    requires |c| == |s| && forall k | 0 <= k < |s| :: s[k] > 0
    ensures InShape(s, Wrap(s, c))
  {
    if s != [] {
      WrapInShape(s[1..], c[1..]);
    }
  }

  /** Every read is inside the input. */
  lemma BroadcastIndexInRange(input: Shape, output: Shape, o: nat)
    requires |input| == |output| && o < Product(output)
    requires forall k | 0 <= k < |input| :: input[k] == 1 || input[k] == output[k]
    ensures BroadcastIndex(input, output, o) < Product(input)
  {
    UnravelRavel(output, o);
    ProjectInShape(input, output, Unravel(output, o));
    RavelUnravel(input, Project(input, Unravel(output, o)));
  }

  lemma TileIndexInRange(reshape: Shape, bcast: Shape, o: nat)
    requires |reshape| == |bcast| && Product(reshape) > 0
    ensures TileIndex(reshape, bcast, o) < Product(reshape)
  {
    ProductPositive(reshape);
    var c := Unravel(Tiled(reshape, bcast), o);
    WrapInShape(reshape, c);
    RavelUnravel(reshape, Wrap(reshape, c));
  }

  // ---------------------------------------------------------------- one more outer axis

  lemma BroadcastIndexCons(d: nat, input: Shape, e: nat, output: Shape, o: nat)
    requires |input| == |output| && Product(output) > 0
    ensures BroadcastIndex([d] + input, [e] + output, o)
         == (if d == 1 then 0 else o / Product(output)) * Product(input)
            + BroadcastIndex(input, output, o % Product(output))
  {
    var o' := o % Product(output);
    assert ([e] + output)[1..] == output && ([d] + input)[1..] == input;
    var c := Unravel([e] + output, o);
    assert c == [o / Product(output)] + Unravel(output, o');
    assert c[1..] == Unravel(output, o');
    var p := Project([d] + input, c);
    assert p == [if d == 1 then 0 else o / Product(output)] + Project(input, c[1..]);
    assert p[1..] == Project(input, c[1..]);
  }

  lemma TileIndexCons(a: nat, reshape: Shape, b: nat, bcast: Shape, o: nat)
    requires |reshape| == |bcast| && Product(Tiled(reshape, bcast)) > 0 && a > 0
    ensures Tiled([a] + reshape, [b] + bcast) == [a * b] + Tiled(reshape, bcast)
    ensures TileIndex([a] + reshape, [b] + bcast, o)
         == (o / Product(Tiled(reshape, bcast)) % a) * Product(reshape)
            + TileIndex(reshape, bcast, o % Product(Tiled(reshape, bcast)))
  {
    var t := Tiled(reshape, bcast);
    var o' := o % Product(t);
    assert ([a] + reshape)[1..] == reshape && ([b] + bcast)[1..] == bcast && ([a * b] + t)[1..] == t;
    var c := Unravel([a * b] + t, o);
    assert c == [o / Product(t)] + Unravel(t, o');
    assert c[1..] == Unravel(t, o');
    var w := Wrap([a] + reshape, c);
    assert w == [o / Product(t) % a] + Wrap(reshape, c[1..]);
    assert w[1..] == Wrap(reshape, c[1..]);
  }

  /** TileIndexCons for the position in row q, column i of the tensor seen as rows of n elements. */
  lemma TileIndexAt(a: nat, reshape: Shape, b: nat, bcast: Shape, n: nat, q: nat, i: nat, o: nat)
    requires |reshape| == |bcast| && i < n == Product(Tiled(reshape, bcast)) && a > 0
    requires o == q * n + i
    ensures TileIndex([a] + reshape, [b] + bcast, o) == (q % a) * Product(reshape) + TileIndex(reshape, bcast, i)
  {
    DivModUnique(o, n, q, i);
    TileIndexCons(a, reshape, b, bcast, o);
  }

  lemma TiledCons(a: nat, reshape: Shape, b: nat, bcast: Shape)
    requires |reshape| == |bcast|
    ensures Tiled([a] + reshape, [b] + bcast) == [a * b] + Tiled(reshape, bcast)
    ensures Product(Tiled([a] + reshape, [b] + bcast)) == a * b * Product(Tiled(reshape, bcast))
  {
    assert ([a] + reshape)[1..] == reshape && ([b] + bcast)[1..] == bcast;
    ProductCons(a * b, Tiled(reshape, bcast));
  }

  // ---------------------------------------------------------------- gradients

  /** Two output positions read the same input element exactly when their coordinates agree on
      every axis where the input has a size other than 1. */
  lemma {:induction false} SameReadIffSameKeptCoordinates(input: Shape, output: Shape, o1: nat, o2: nat)
    requires |input| == |output| && o1 < Product(output) && o2 < Product(output)
    requires forall k | 0 <= k < |input| :: input[k] == 1 || input[k] == output[k]
    ensures BroadcastIndex(input, output, o1) == BroadcastIndex(input, output, o2)
       <==> forall k | 0 <= k < |input| && input[k] != 1 :: Unravel(output, o1)[k] == Unravel(output, o2)[k]
  {
    UnravelRavel(output, o1);
    UnravelRavel(output, o2);
    var c1, c2 := Unravel(output, o1), Unravel(output, o2);
    ProjectInShape(input, output, c1);
    ProjectInShape(input, output, c2);
    RavelUnravel(input, Project(input, c1));
    RavelUnravel(input, Project(input, c2));
    ProjectAt(input, c1);
    ProjectAt(input, c2);
    assert (forall k | 0 <= k < |input| :: Project(input, c1)[k] == Project(input, c2)[k])
      <==> Project(input, c1) == Project(input, c2);
  }

  lemma {:induction false} ProjectAt(input: Shape, c: seq<nat>)
    requires |c| == |input|
    ensures forall k | 0 <= k < |input| :: Project(input, c)[k] == if input[k] == 1 then 0 else c[k]
  {
    if input != [] {
      ProjectAt(input[1..], c[1..]);
    }
  }

  // ---------------------------------------------------------------- no broadcasting needed

  lemma {:induction false} ProductAtMost(input: Shape, output: Shape)
    requires |input| == |output| && Product(output) > 0
    requires forall k | 0 <= k < |input| :: input[k] == 1 || input[k] == output[k]
    ensures 0 < Product(input) <= Product(output)
    ensures Product(input) == Product(output) ==> input == output
  {
    ProductPositive(output);
    if input != [] {
      ProductPositive(output[1..]);
      ProductAtMost(input[1..], output[1..]);
      ScaledAtMost(input[0], output[0], Product(input[1..]), Product(output[1..]));
      assert input == [input[0]] + input[1..] && output == [output[0]] + output[1..];
    }
  }

  lemma ScaledAtMost(a: nat, b: nat, p: nat, q: nat)
    requires 0 < p <= q && 0 < b && (a == 1 || a == b)
    ensures 0 < a * p <= b * q
    ensures a * p == b * q ==> a == b && p == q
  {
    if a == b {
      assert p < q ==> a * (q - p) > 0;
      assert a * q == a * p + a * (q - p);
    } else {
      assert b * q == 2 * q + (b - 2) * q;
    }
  }

  /** A compatible input with as many elements as the output is read in order. */
  lemma FullSizeInputIsReadInOrder(input: Shape, output: Shape, o: nat)
    requires |input| == |output| && o < Product(output)
    requires forall k | 0 <= k < |input| :: input[k] == 1 || input[k] == output[k]
    requires Product(input) == Product(output)
    ensures BroadcastIndex(input, output, o) == o
  {
    ProductAtMost(input, output);
    var c := Unravel(output, o);
    UnravelRavel(output, o);
    ProjectAt(output, c);
    assert Project(output, c) == c;
  }
}
