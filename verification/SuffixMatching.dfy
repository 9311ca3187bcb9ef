/**
 * The NumPy rule on the operands as they are given. Axes are matched from the innermost one outwards, and nothing
 * here mentions the 1-extended shapes.
 */
module SuffixMatching {
  import opened DivMod
  import opened BroadcastRule
  import opened BCastLists

  /** The operands that have a k-th axis from the inside have equal sizes on it, except for sizes of 1. */
  ghost predicate MatchAt(xs: seq<Shape>, k: nat) {
    forall i, h | 0 <= i < |xs| && 0 <= h < |xs| && k < |xs[i]| && k < |xs[h]| ::
      || xs[i][|xs[i]| - 1 - k] == xs[h][|xs[h]| - 1 - k]
      || xs[i][|xs[i]| - 1 - k] == 1
      || xs[h][|xs[h]| - 1 - k] == 1
  }

  ghost predicate Matching(xs: seq<Shape>) {
    forall k: nat :: MatchAt(xs, k)
  }

  /** The k-th size of the output from the inside is the one size other than 1 of the operands that have such an
      axis, or 1. */
  ghost predicate OutputAt(xs: seq<Shape>, output: Shape, k: nat)
    requires k < |output|
  {
    var d := output[|output| - 1 - k];
    && (forall i | 0 <= i < |xs| && k < |xs[i]| :: xs[i][|xs[i]| - 1 - k] == 1 || xs[i][|xs[i]| - 1 - k] == d)
    && (d == 1 || exists i :: 0 <= i < |xs| && k < |xs[i]| && xs[i][|xs[i]| - 1 - k] == d)
  }

  ghost predicate IsMatchedShape(xs: seq<Shape>, output: Shape) {
    && (forall i | 0 <= i < |xs| :: |xs[i]| <= |output|)
    && (exists i | 0 <= i < |xs| :: |xs[i]| == |output|)
    && (forall k: nat | k < |output| :: OutputAt(xs, output, k))
  }

  /** The position read in an operand: the coordinates of the axes that it has, with 0 along those of size 1. */
  ghost function ReadAt(x: Shape, output: Shape, o: nat): nat
    requires |x| <= |output|
  {
    Ravel(x, Project(x, Unravel(output, o)[|output| - |x|..]))
  }

  /** Reshaping and tiling reads what the rule reads. */
  ghost predicate ReadsOperand(reshape: Shape, bcast: Shape, x: Shape, output: Shape)
    requires |x| <= |output|
  {
    && |reshape| == |bcast|
    && forall o: nat | o < Product(output) :: TileIndex(reshape, bcast, o) == ReadAt(x, output, o)
  }

  /** The table holds the position that the rule reads, for every output position. */
  ghost predicate IsReadTable(table: seq<nat>, x: Shape, output: Shape)
    requires |x| <= |output|
  {
    && |table| == Product(output)
    && forall o: nat | o < |table| :: table[o] == ReadAt(x, output, o) < Product(x)
  }

  ghost predicate IsReadInOrder(x: Shape, output: Shape)
    requires |x| <= |output|
  {
    forall o: nat | o < Product(output) :: ReadAt(x, output, o) == o
  }

  /** The gradient of an operand is summed over the axes that it lacks and those on which it has size 1. */
  ghost predicate IsReducedAxes(axes: seq<nat>, x: Shape, rank: nat)
    requires |x| <= rank
  {
    && (forall p, q | 0 <= p < q < |axes| :: axes[p] < axes[q])
    && (forall k: nat :: k in axes <==> k < rank && (k < rank - |x| || x[k - (rank - |x|)] == 1))
  }

  // ---------------------------------------------------------------- the 1-extended shapes

  lemma AlignedFromInner(s: Shape, rank: nat, k: nat)
    requires |s| <= rank && k < rank
    ensures Align(s, rank)[rank - 1 - k] == if k < |s| then s[|s| - 1 - k] else 1
  {}

  /** Some operand has the largest rank. */
  lemma {:induction false} RankAttained(xs: seq<Shape>) returns (i: nat)
    requires |xs| > 0
    ensures i < |xs| && |xs[i]| == MaxRank(xs)
  {
    i := |xs| - 1;
    if i > 0 && |xs[i]| <= MaxRank(xs[..i]) {
      i := RankAttained(xs[..i]);
    }
  }

  lemma AgreeIffMatch(xs: seq<Shape>, k: nat)
    requires k < MaxRank(xs)
    ensures AgreeAt(AlignAll(xs), MaxRank(xs) - 1 - k) <==> MatchAt(xs, k)
  {
    var rank, a := MaxRank(xs), AlignAll(xs);
    var l := rank - 1 - k;
    hide MaxRank, AlignAll, Align;
    forall i | 0 <= i < |xs| ensures a[i][l] == if k < |xs[i]| then xs[i][|xs[i]| - 1 - k] else 1 {
      AlignedFromInner(xs[i], rank, k);
    }
  }

  /** The 1-extended shapes are compatible exactly when the operands match from the innermost axis outwards. */
  lemma CompatibleIffMatching(xs: seq<Shape>)
    ensures Compatible(AlignAll(xs), MaxRank(xs)) <==> Matching(xs)
  {
    var rank := MaxRank(xs);
    hide AgreeAt, MaxRank, AlignAll;
    forall k: nat | k < rank ensures AgreeAt(AlignAll(xs), rank - 1 - k) <==> MatchAt(xs, k) {
      AgreeIffMatch(xs, k);
    }
    forall k: nat | k < rank ensures AgreeAt(AlignAll(xs), k) <==> MatchAt(xs, rank - 1 - k) {
      AgreeIffMatch(xs, rank - 1 - k);
    }
  }

  lemma OutputMatchedAt(xs: seq<Shape>, output: Shape, k: nat)
    requires k < |output| == MaxRank(xs) && IsOutputDim(AlignAll(xs), |output| - 1 - k, output[|output| - 1 - k])
    ensures OutputAt(xs, output, k)
  {
    var rank, a := |output|, AlignAll(xs);
    var l := rank - 1 - k;
    hide MaxRank, AlignAll, Align;
    forall i | 0 <= i < |xs| ensures a[i][l] == if k < |xs[i]| then xs[i][|xs[i]| - 1 - k] else 1 {
      AlignedFromInner(xs[i], rank, k);
    }
  }

  lemma OutputMatched(xs: seq<Shape>, output: Shape)
    requires |xs| > 0 && |output| == MaxRank(xs) && IsBroadcastShape(AlignAll(xs), output)
    ensures IsMatchedShape(xs, output)
  {
    hide IsOutputDim, OutputAt;
    var i := RankAttained(xs);
    forall k: nat | k < |output| ensures OutputAt(xs, output, k) {
      OutputMatchedAt(xs, output, k);
    }
  }

  // ---------------------------------------------------------------- what is read

  lemma DropOuter(q: nat, c: seq<nat>, n: nat)
    requires n <= |c|
    ensures ([q] + c)[n + 1..] == c[n..]
  {}

  /** Coordinates beyond the axes of an operand do not matter. */
  lemma OuterCoordinate(x: Shape, e: nat, output: Shape, o: nat)
    requires |x| <= |output| && Product(output) > 0
    ensures ReadAt(x, [e] + output, o) == ReadAt(x, output, o % Product(output))
  {
    assert ([e] + output)[1..] == output;
    var c := Unravel([e] + output, o);
    assert c == [o / Product(output)] + Unravel(output, o % Product(output));
    DropOuter(o / Product(output), Unravel(output, o % Product(output)), |output| - |x|);
  }

  lemma SameRankRead(x: Shape, output: Shape, o: nat)
    requires |x| == |output|
    ensures ReadAt(x, output, o) == BroadcastIndex(x, output, o)
  {
    assert Unravel(output, o)[0..] == Unravel(output, o);
  }

  /** Extending an operand with 1s on the outside does not change what is read. */
  lemma {:induction false} AlignedRead(x: Shape, output: Shape, o: nat)
    requires |x| <= |output| && Product(output) > 0
    ensures BroadcastIndex(Align(x, |output|), output, o) == ReadAt(x, output, o)
    decreases |output|
  {
    if |x| == |output| {
      SameRankRead(x, output, o);
    } else {
      var rest := output[1..];
      assert output == [output[0]] + rest;
      ProductCons(output[0], rest);
      MulPositive(output[0], Product(rest));
      assert Align(x, |output|) == [1] + Align(x, |rest|);
      BroadcastIndexCons(1, Align(x, |rest|), output[0], rest, o);
      OuterCoordinate(x, output[0], rest, o);
      AlignedRead(x, rest, o % Product(rest));
    }
  }

  /** An operand and the same operand with n leading ones read the same elements. */
  lemma LeadingOnesAreTransparent(x: Shape, n: nat, output: Shape, o: nat)
    requires n + |x| <= |output| && o < Product(output)
    ensures ReadAt(seq(n, _ => 1) + x, output, o) == ReadAt(x, output, o)
  {
    var y := seq(n, _ => 1) + x;
    AlignedOnes(x, n, |output|);
    hide Align, BroadcastIndex, ReadAt;
    AlignedRead(x, output, o);
    AlignedRead(y, output, o);
  }

  lemma AlignedOnes(x: Shape, n: nat, rank: nat)
    requires n + |x| <= rank
    ensures Align(seq(n, _ => 1) + x, rank) == Align(x, rank)
  {}

  /** Leading ones do not change which operands match either. */
  lemma LeadingOnesMatch(xs: seq<Shape>, i: nat, n: nat)
    requires i < |xs|
    ensures Matching(xs[i := seq(n, _ => 1) + xs[i]]) <==> Matching(xs)
  {
    var ys := xs[i := seq(n, _ => 1) + xs[i]];
    forall k: nat ensures MatchAt(ys, k) <==> MatchAt(xs, k) {
      forall g | 0 <= g < |xs| ensures k < |xs[g]| ==> k < |ys[g]| {}
      forall g | 0 <= g < |xs| && k < |ys[g]|
        ensures ys[g][|ys[g]| - 1 - k] == if k < |xs[g]| then xs[g][|xs[g]| - 1 - k] else 1
      {}
      if !MatchAt(xs, k) {
        var g, h :| 0 <= g < |xs| && 0 <= h < |xs| && k < |xs[g]| && k < |xs[h]|
          && xs[g][|xs[g]| - 1 - k] != xs[h][|xs[h]| - 1 - k]
          && xs[g][|xs[g]| - 1 - k] != 1 && xs[h][|xs[h]| - 1 - k] != 1;
        assert ys[g][|ys[g]| - 1 - k] == xs[g][|xs[g]| - 1 - k];
      }
    }
  }

  lemma {:induction false} AlignedProduct(x: Shape, rank: nat)
    requires |x| <= rank
    ensures Product(Align(x, rank)) == Product(x)
    decreases rank
  {
    if |x| < rank {
      assert Align(x, rank) == [1] + Align(x, rank - 1);
      ProductCons(1, Align(x, rank - 1));
      AlignedProduct(x, rank - 1);
    }
  }

  lemma OperandRead(reshape: Shape, bcast: Shape, x: Shape, output: Shape)
    requires |x| <= |output| && Represents(reshape, bcast, Align(x, |output|), output)
    ensures ReadsOperand(reshape, bcast, x, output)
  {
    hide TileIndex, BroadcastIndex, ReadAt;
    forall o: nat | o < Product(output) ensures TileIndex(reshape, bcast, o) == ReadAt(x, output, o) {
      AlignedRead(x, output, o);
    }
  }

  lemma TableRead(table: seq<nat>, x: Shape, output: Shape)
    requires |x| <= |output| && |table| == Product(output)
    requires forall o | 0 <= o < |table| ::
        table[o] == BroadcastIndex(Align(x, |output|), output, o) && table[o] < Product(Align(x, |output|))
    ensures IsReadTable(table, x, output)
  {
    hide BroadcastIndex, ReadAt;
    AlignedProduct(x, |output|);
    forall o: nat | o < |table| ensures table[o] == ReadAt(x, output, o) {
      AlignedRead(x, output, o);
    }
  }

  lemma UnitAxesReduced(axes: seq<nat>, x: Shape, rank: nat)
    requires |x| <= rank && IsUnitAxes(Align(x, rank), axes)
    ensures IsReducedAxes(axes, x, rank)
  {
    assert forall k: nat | k < rank :: Align(x, rank)[k] == if k < rank - |x| then 1 else x[k - (rank - |x|)];
  }

  // ---------------------------------------------------------------- the room that the numbers need

  /** The room of a shape is the number of elements once every 0 is replaced by 1. */
  lemma {:induction false} RoomReplacesZeros(s: Shape, t: Shape)
    requires |s| == |t| && forall k | 0 <= k < |s| :: t[k] == if s[k] == 0 then 1 else s[k]
    ensures Room(s) == Product(t)
  {
    if s != [] {
      assert s == [s[0]] + s[1..] && t == [t[0]] + t[1..];
      RoomCons(s[0], s[1..]);
      ProductCons(t[0], t[1..]);
      RoomReplacesZeros(s[1..], t[1..]);
    }
  }
}
