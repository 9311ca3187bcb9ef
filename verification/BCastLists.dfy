/** BCastList: the helper shapes for broadcasting N operands, with the coalescing of dimensions. */
module BCastLists {
  import opened DivMod
  import opened BroadcastRule
  import opened BatchIndices

  function Reverse<T>(s: seq<T>): (r: seq<T>)
    ensures |r| == |s|
    ensures forall k | 0 <= k < |s| :: r[k] == s[|s| - 1 - k]
  {
    if s == [] then [] else Reverse(s[1..]) + [s[0]]
  }

  lemma ReverseSnoc<T>(s: seq<T>, x: T)
    ensures Reverse(s + [x]) == [x] + Reverse(s)
  {}

  // ---------------------------------------------------------------- what the helper shapes mean

  /** x.reshape(reshape).broadcast(bcast) is x, of shape `input`, broadcast to shape `output`. */
  ghost predicate Represents(reshape: Shape, bcast: Shape, input: Shape, output: Shape)
  {
    && |reshape| == |bcast| && |input| == |output|
    && KeptOrRepeated(reshape, bcast)
    && Product(reshape) == Product(input)
    && Product(Tiled(reshape, bcast)) == Product(output)
    && forall o: nat | o < Product(output) :: TileIndex(reshape, bcast, o) == BroadcastIndex(input, output, o)
  }

  /** A new outer axis with its own reshape and bcast entries. */
  lemma PushRepresents(reshape: Shape, bcast: Shape, input: Shape, output: Shape, d: nat, b: nat, e: nat)
    requires Represents(reshape, bcast, input, output) && (d == 1 || d == e)
    requires b == if d == 1 then e else 1
    ensures Represents([d] + reshape, [b] + bcast, [d] + input, [e] + output)
  {
    var n := Product(output);
    ProductCons(d, reshape);
    ProductCons(d, input);
    ProductCons(e, output);
    TiledCons(d, reshape, b, bcast);
    assert d * b == e;
    forall o: nat | o < e * n
      ensures TileIndex([d] + reshape, [b] + bcast, o) == BroadcastIndex([d] + input, [e] + output, o)
    {
      MulPositive(e, n);
      MulPositive(d, b);
      TileIndexCons(d, reshape, b, bcast, o);
      BroadcastIndexCons(d, input, e, output, o);
      DivBound(o, e, n);
      WrapOne(o / n, d, e);
    }
    KeptCons(d, reshape, b, bcast);
  }

  lemma WrapOne(q: nat, d: nat, e: nat)
    requires 0 < d && q < e && (d == 1 || d == e)
    ensures q % d == if d == 1 then 0 else q
  {
    if d == 1 {
      DivModUnique(q, 1, q, 0);
    } else {
      DivModUnique(q, d, 0, q);
    }
  }

  /** An axis on which every operand has size 1 needs no entry. */
  lemma SkipRepresents(reshape: Shape, bcast: Shape, input: Shape, output: Shape)
    requires Represents(reshape, bcast, input, output)
    ensures Represents(reshape, bcast, [1] + input, [1] + output)
  {
    var n := Product(output);
    ProductCons(1, input);
    ProductCons(1, output);
    forall o: nat | o < n
      ensures TileIndex(reshape, bcast, o) == BroadcastIndex([1] + input, [1] + output, o)
    {
      BroadcastIndexCons(1, input, 1, output, o);
      DivModUnique(o, n, 0, o);
    }
  }

  /** Splitting a merged axis of size ad = a * d repeated cb times back into its two parts: v positions
      inside both, m blocks of them inside the outer one. */
  lemma MergedTileIndex(a: nat, r: Shape, c: nat, t: Shape, d: nat, b: nat, ad: nat, cb: nat, m: nat, v: nat,
                        hi: nat, lo: nat, i: nat, q: nat, o: nat, rem: nat)
    requires |r| == |t| && (if d == 1 then a == 1 else c == 1 && b == 1)
    requires a > 0 && c > 0 && d > 0 && b > 0
    requires ad == a * d > 0 && m == a * c
    requires i < v == Product(Tiled(r, t)) && lo < m && hi < d * b
    requires q == hi * m + lo && o == q * v + i && rem == lo * v + i
    ensures TileIndex([ad] + r, [cb] + t, o)
      == (if d == 1 then 0 else hi) * (a * Product(r)) + TileIndex([a] + r, [c] + t, rem)
  {
    TileIndexAt(ad, r, cb, t, v, q, i, o);
    TileIndexAt(a, r, c, t, v, lo, i, rem);
    MergedCoordinate(hi, lo, q, a, c, d, b, m, Product(r));
  }

  /** Position o as row hi of n = m * v positions, block lo of v positions in it, position i in the block. */
  lemma SplitPosition(o: nat, e: nat, m: nat, v: nat, n: nat) returns (hi: nat, lo: nat, i: nat, q: nat)
    requires o < e * n && n == m * v
    ensures n > 0 && m > 0 && v > 0 && e > 0
    ensures hi == o / n < e && lo < m && i < v && q == hi * m + lo && o == q * v + i && o % n == lo * v + i
  {
    var rem;
    hi, rem := DivModOf(o, e, n);
    MulPositive(e, n);
    MulPositive(m, v);
    lo, i := DivModOf(rem, m, v);
    q := hi * m + lo;
    Regroup(hi, m, lo, v);
  }

  lemma Regroup(hi: nat, m: nat, lo: nat, v: nat)
    ensures (hi * m + lo) * v == hi * (m * v) + lo * v
  {
    MulAssociative(hi, m, v);
  }

  lemma MergedCoordinate(hi: nat, lo: nat, q: nat, a: nat, c: nat, d: nat, b: nat, m: nat, stride: nat)
    requires a > 0 && c > 0 && d > 0 && b > 0 && m == a * c && q == hi * m + lo && lo < m
    requires if d == 1 then a == 1 else c == 1 && b == 1
    requires hi < d * b
    ensures a * d > 0
    ensures (q % (a * d)) * stride == (if d == 1 then 0 else hi) * (a * stride) + (lo % a) * stride
  {
    if d == 1 {
      DivModUnique(q, 1, q, 0);
      DivModUnique(lo, 1, lo, 0);
    } else {
      DivModUnique(lo, a, 0, lo);
      MulMonotone(hi + 1, d, a);
      assert (hi + 1) * a == hi * a + a && d * a == a * d;
      DivModUnique(q, a * d, 0, q);
      assert (hi * a + lo) * stride == hi * (a * stride) + lo * stride;
    }
  }

  lemma MergedRead(a: nat, r: Shape, c: nat, t: Shape, input: Shape, output: Shape,
                   d: nat, b: nat, e: nat, ad: nat, cb: nat, o: nat)
    requires |r| == |t| && Represents([a] + r, [c] + t, input, output)
    requires (d == 1 || d == e) && (if d == 1 then a == 1 && b == e else c == 1 && b == 1)
    requires ad == a * d && cb == c * b && o < e * Product(output)
    ensures TileIndex([ad] + r, [cb] + t, o) == BroadcastIndex([d] + input, [e] + output, o)
  {
    var v := Product(Tiled(r, t));
    TiledCons(a, r, c, t);
    ProductCons(a, r);
    var hi, lo, i, q := SplitPosition(o, e, a * c, v, Product(output));
    MulPositive(a, c);
    MulPositive(a, d);
    MergedTileIndex(a, r, c, t, d, b, ad, cb, a * c, v, hi, lo, i, q, o, o % Product(output));
    BroadcastIndexCons(d, input, e, output, o);
  }

  lemma KeptCons(a: nat, r: Shape, c: nat, t: Shape)
    requires |r| == |t|
    ensures KeptOrRepeated([a] + r, [c] + t) <==> (a == 1 || c == 1) && KeptOrRepeated(r, t)
  {
    var s, u := [a] + r, [c] + t;
    assert s[0] == a && u[0] == c;
    assert forall k | 0 <= k < |r| :: s[k + 1] == r[k] && u[k + 1] == t[k];
  }

  /** The outermost entries a and c absorb an axis with the same pattern. */
  lemma MergeRepresents(a: nat, r: Shape, c: nat, t: Shape, input: Shape, output: Shape,
                        d: nat, b: nat, e: nat, ad: nat, cb: nat)
    requires |r| == |t| && Represents([a] + r, [c] + t, input, output)
    requires (d == 1 || d == e) && b == (if d == 1 then e else 1)
    requires if d == 1 then a == 1 else c == 1
    requires ad == a * d && cb == c * b
    ensures Represents([ad] + r, [cb] + t, [d] + input, [e] + output)
    ensures ad * cb == (a * c) * e
  {
    ProductCons(a, r);
    ProductCons(ad, r);
    ProductCons(d, input);
    ProductCons(e, output);
    TiledCons(a, r, c, t);
    TiledCons(ad, r, cb, t);
    MergedSizes(a, c, d, b, e, Product(Tiled(r, t)), Product(r));
    KeptCons(a, r, c, t);
    KeptCons(ad, r, cb, t);
    forall o: nat | o < Product([e] + output)
      ensures TileIndex([ad] + r, [cb] + t, o) == BroadcastIndex([d] + input, [e] + output, o)
    {
      MergedRead(a, r, c, t, input, output, d, b, e, ad, cb, o);
    }
  }

  lemma MergedSizes(a: nat, c: nat, d: nat, b: nat, e: nat, v: nat, p: nat)
    requires (d == 1 || d == e) && b == (if d == 1 then e else 1)
    requires if d == 1 then a == 1 else c == 1
    ensures d * b == e && (a * d) * (c * b) == (a * c) * e
    ensures (a * d) * (c * b) * v == e * ((a * c) * v)
    ensures (a * d) * p == d * (a * p)
    ensures a * d == 1 || c * b == 1
  {}

  // ---------------------------------------------------------------- the size of the numbers

  /** A size that counts as 1 when it is 0. */
  function AtLeastOne(d: nat): nat {
    if d == 0 then 1 else d
  }

  /** The product of the sizes, with 1 for 0: no product of some of them is larger. */
  function Room(s: Shape): (r: nat)
    ensures r > 0
  {
    if s == [] then 1
    else
      MulPositive(Room(s[..|s| - 1]), AtLeastOne(s[|s| - 1]));
      Room(s[..|s| - 1]) * AtLeastOne(s[|s| - 1])
  }

  lemma RoomSnoc(s: Shape, d: nat)
    ensures Room(s + [d]) == Room(s) * AtLeastOne(d) && Room(s) <= Room(s + [d])
  {
    assert (s + [d])[..|s + [d]| - 1] == s;
    MulMonotone(1, AtLeastOne(d), Room(s));
  }

  lemma {:induction false} RoomCons(d: nat, s: Shape)
    ensures Room([d] + s) == AtLeastOne(d) * Room(s)
  {
    if s == [] {
      assert [d] + s == [] + [d];
      RoomSnoc([], d);
    } else {
      var n := |s| - 1;
      RoomCons(d, s[..n]);
      assert s == s[..n] + [s[n]] && [d] + s == ([d] + s[..n]) + [s[n]];
      RoomSnoc(s[..n], s[n]);
      RoomSnoc([d] + s[..n], s[n]);
      MulAssociative(AtLeastOne(d), Room(s[..n]), AtLeastOne(s[n]));
    }
  }

  lemma {:induction false} RoomReverse(s: Shape)
    ensures Room(Reverse(s)) == Room(s)
  {
    if s != [] {
      RoomReverse(s[1..]);
      RoomSnoc(Reverse(s[1..]), s[0]);
      assert s == [s[0]] + s[1..];
      RoomCons(s[0], s[1..]);
    }
  }

  /** Every size and the product are in the room; for a shape that is not empty the room is its product. */
  lemma {:induction false} RoomOf(s: Shape)
    ensures Product(s) <= Room(s) && (Product(s) > 0 ==> Room(s) == Product(s))
    ensures forall k | 0 <= k < |s| :: s[k] <= Room(s)
  {
    if s != [] {
      RoomOf(s[1..]);
      assert s == [s[0]] + s[1..];
      RoomCons(s[0], s[1..]);
      RoomStep(s[0], Product(s[1..]), Room(s[1..]));
      assert forall k | 1 <= k < |s| :: s[k] == s[1..][k - 1];
    }
  }

  lemma RoomStep(d: nat, n: nat, room: nat)
    requires n <= room && (n > 0 ==> room == n) && room > 0
    ensures d * n <= AtLeastOne(d) * room && (d * n > 0 ==> AtLeastOne(d) * room == d * n)
    ensures d <= AtLeastOne(d) * room && room <= AtLeastOne(d) * room
  {
    MulMonotone(1, AtLeastOne(d), room);
    MulMonotone(1, room, AtLeastOne(d));
    MulPositive(d, n);
  }

  /** A merged run of axes takes no more room than the axes. */
  lemma RoomScaled(s: Shape, d: nat)
    requires |s| > 0
    ensures Room(ScaleLast(s, d)) <= Room(s) * AtLeastOne(d)
  {
    var n := |s| - 1;
    var scaled := s[n] * d;
    var t := s[..n] + [scaled];
    assert ScaleLast(s, d) == t && s == s[..n] + [s[n]];
    hide *;
    LastScaled(s, t, s[..n], s[n], d, scaled);
  }

  lemma LastScaled(s: Shape, t: Shape, front: Shape, a: nat, d: nat, scaled: nat)
    requires s == front + [a] && t == front + [scaled] && scaled == a * d
    ensures Room(t) <= Room(s) * AtLeastOne(d)
  {
    hide Room, AtLeastOne;
    RoomSnoc(front, a);
    RoomSnoc(front, scaled);
    ScaledRoom(Room(front), a, d);
  }

  lemma ScaledRoom(room: nat, a: nat, d: nat)
    ensures room * AtLeastOne(a * d) <= room * AtLeastOne(a) * AtLeastOne(d)
  {
    MulAssociative(room, AtLeastOne(a), AtLeastOne(d));
    ProductAtLeastOne(a, d);
    hide AtLeastOne;
    MulMonotone(AtLeastOne(a * d), AtLeastOne(a) * AtLeastOne(d), room);
  }

  lemma ProductAtLeastOne(a: nat, d: nat)
    ensures AtLeastOne(a * d) <= AtLeastOne(a) * AtLeastOne(d)
  {
    if a == 0 {
      assert a * d == 0;
    } else if d == 0 {
      assert a * d == 0;
    }
  }

  /** A product of the outermost sizes is in the room of the shape. */
  lemma {:induction false} PrefixInRoom(s: Shape, n: nat)
    requires n <= |s|
    ensures Product(s[..n]) <= Room(s)
    decreases |s|
  {
    RoomOf(s[..n]);
    if n == |s| {
      assert s[..n] == s;
    } else {
      var m := |s| - 1;
      PrefixInRoom(s[..m], n);
      assert s[..m][..n] == s[..n] && s == s[..m] + [s[m]];
      RoomSnoc(s[..m], s[m]);
    }
  }

  /** The entries of an operand are in the room of the result. */
  lemma EntriesInRoom(reshape: Shape, bcast: Shape, k: nat)
    requires |reshape| == |bcast| && KeptOrRepeated(reshape, bcast) && k < |reshape|
    ensures reshape[k] <= Room(Tiled(reshape, bcast)) && bcast[k] <= Room(Tiled(reshape, bcast))
  {
    TiledAt(reshape, bcast);
    RoomOf(Tiled(reshape, bcast));
    assert reshape[k] == 1 || bcast[k] == 1;
  }

  // ---------------------------------------------------------------- the class

  function MaxRank(xs: seq<Shape>): (m: nat)
    ensures forall i | 0 <= i < |xs| :: |xs[i]| <= m
  {
    if xs == [] then 0
    else
      var m := MaxRank(xs[..|xs| - 1]);
      if |xs[|xs| - 1]| > m then |xs[|xs| - 1]| else m
  }

  /** All operands, 1-extended to the largest rank. */
  ghost function AlignAll(xs: seq<Shape>): (a: seq<Shape>)
    ensures |a| == |xs| && SameRank(a, MaxRank(xs))
    ensures forall i | 0 <= i < |xs| :: a[i] == Align(xs[i], MaxRank(xs))
  {
    seq(|xs|, i requires 0 <= i < |xs| => Align(xs[i], MaxRank(xs)))
  }

  ghost predicate AllEqual(xs: seq<Shape>)
    requires |xs| > 0
  {
    forall i | 0 <= i < |xs| :: xs[i] == xs[0]
  }

  /** Exactly the axes on which the operand has size 1, in increasing order. */
  ghost predicate IsUnitAxes(input: Shape, axes: seq<nat>)
  {
    && (forall p, q | 0 <= p < q < |axes| :: axes[p] < axes[q])
    && (forall k: nat :: k in axes <==> k < |input| && input[k] == 1)
  }

  /** Summing a gradient over `axes` adds up exactly the output positions that read one input element. */
  ghost predicate ReducesToInput(reshape: Shape, bcast: Shape, output: Shape, axes: seq<nat>)
    requires |reshape| == |bcast|
  {
    forall o1: nat, o2: nat | o1 < Product(output) && o2 < Product(output) ::
      TileIndex(reshape, bcast, o1) == TileIndex(reshape, bcast, o2)
      <==> (forall k: nat | k < |output| && k !in axes :: Unravel(output, o1)[k] == Unravel(output, o2)[k])
  }

  /** Which operands have size 1 along axis k. */
  ghost function Pattern(reshape: seq<Shape>, k: nat): (p: seq<bool>)
    requires forall i | 0 <= i < |reshape| :: k < |reshape[i]|
    ensures |p| == |reshape| && forall i | 0 <= i < |reshape| :: p[i] <==> reshape[i][k] == 1
  {
    seq(|reshape|, i requires 0 <= i < |reshape| => reshape[i][k] == 1)
  }

  /** No axis of size 1 is kept, and no two neighbouring axes have the same broadcast pattern. */
  ghost predicate Coalesced(reshape: seq<Shape>, result: Shape)
    requires SameRank(reshape, |result|)
  {
    && (forall k | 0 <= k < |result| :: result[k] != 1)
    && (forall k, l | 0 <= k < l < |result| && l == k + 1 :: Pattern(reshape, k) != Pattern(reshape, l))
  }

  /** One operand's vectors, innermost axis first, after the axes of `copy` and `output` so far. */
  ghost predicate Lane(reshape: Shape, bcast: Shape, copy: Shape, output: Shape, result: Shape)
  {
    && |copy| == |output| && |reshape| == |bcast| == |result|
    && Represents(Reverse(reshape), Reverse(bcast), Reverse(copy), Reverse(output))
    && Tiled(Reverse(reshape), Reverse(bcast)) == Reverse(result)
  }

  function ScaleLast(s: Shape, d: nat): (t: Shape)
    requires |s| > 0
    ensures |t| == |s| && t[..|s| - 1] == s[..|s| - 1]
  {
    s[..|s| - 1] + [s[|s| - 1] * d]
  }

  lemma {:induction false} ReverseLast(s: Shape)
    requires |s| > 0
    ensures Reverse(s) == [s[|s| - 1]] + Reverse(s[..|s| - 1])
  {
    hide Reverse;
    var r, t := Reverse(s), [s[|s| - 1]] + Reverse(s[..|s| - 1]);
    assert |r| == |t| && forall k | 0 <= k < |r| :: r[k] == t[k];
  }

  lemma LanePush(reshape: Shape, bcast: Shape, copy: Shape, output: Shape, result: Shape,
                 d: nat, b: nat, e: nat)
    requires Lane(reshape, bcast, copy, output, result) && (d == 1 || d == e)
    requires b == if d == 1 then e else 1
    ensures Lane(reshape + [d], bcast + [b], copy + [d], output + [e], result + [e])
  {
    ReverseSnoc(reshape, d);
    ReverseSnoc(bcast, b);
    ReverseSnoc(copy, d);
    ReverseSnoc(output, e);
    ReverseSnoc(result, e);
    PushRepresents(Reverse(reshape), Reverse(bcast), Reverse(copy), Reverse(output), d, b, e);
    TiledCons(d, Reverse(reshape), b, Reverse(bcast));
    assert e == d * b;
  }

  lemma LaneSkip(reshape: Shape, bcast: Shape, copy: Shape, output: Shape, result: Shape)
    requires Lane(reshape, bcast, copy, output, result)
    ensures Lane(reshape, bcast, copy + [1], output + [1], result)
  {
    ReverseSnoc(copy, 1);
    ReverseSnoc(output, 1);
    SkipRepresents(Reverse(reshape), Reverse(bcast), Reverse(copy), Reverse(output));
  }

  lemma LaneMerge(reshape: Shape, bcast: Shape, copy: Shape, output: Shape, result: Shape,
                  d: nat, b: nat, e: nat)
    requires Lane(reshape, bcast, copy, output, result) && (d == 1 || d == e) && |reshape| > 0
    requires b == if d == 1 then e else 1
    requires if d == 1 then reshape[|reshape| - 1] == 1 else bcast[|bcast| - 1] == 1
    ensures Lane(ScaleLast(reshape, d), ScaleLast(bcast, b), copy + [d], output + [e], ScaleLast(result, e))
  {
    var n := |reshape| - 1;
    var r, t := Reverse(reshape[..n]), Reverse(bcast[..n]);
    ReverseLast(reshape);
    ReverseLast(bcast);
    ReverseLast(result);
    ReverseLast(ScaleLast(reshape, d));
    ReverseLast(ScaleLast(bcast, b));
    ReverseLast(ScaleLast(result, e));
    ReverseSnoc(copy, d);
    ReverseSnoc(output, e);
    MergeRepresents(reshape[n], r, bcast[n], t, Reverse(copy), Reverse(output), d, b, e,
                    reshape[n] * d, bcast[n] * b);
    TiledCons(reshape[n], r, bcast[n], t);
    TiledCons(reshape[n] * d, r, bcast[n] * b, t);
    assert Tiled(r, t) == Reverse(result[..n]) by {
      assert Tiled(Reverse(reshape), Reverse(bcast))[1..] == Tiled(r, t);
    }
    assert result[n] == Tiled(Reverse(reshape), Reverse(bcast))[0];
  }
}
