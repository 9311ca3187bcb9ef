/** Broadcasting of the batch dimensions of a matrix product, and the transparency of coalescing. */
module MatMulBCasts {
  import opened Basics
  import opened BroadcastRule
  import opened BatchIndices
  import opened BCastLists
  import opened SuffixMatching
  import opened BCast

  lemma BroadcastShapeUnique(xs: seq<Shape>, a: Shape, b: Shape)
    requires |xs| > 0 && |a| == |b| && SameRank(xs, |a|)
    requires IsBroadcastShape(xs, a) && IsBroadcastShape(xs, b)
    ensures a == b
  {
    forall k | 0 <= k < |a| ensures a[k] == b[k] {
      assert IsOutputDim(xs, k, a[k]) && IsOutputDim(xs, k, b[k]);
    }
  }

  /** fewer_dims_optimization is transparent: with and without it the same operands are compatible, the
      output is the same, and every output position reads the same element of every operand. For an output that is
      not empty, the numbers of both stay in int64s exactly when the number of elements of the output is one. */
  method FewerDimsIsTransparent(x: seq<Shape>) returns (coalesced: BCastList, plain: BCastList)
    requires |x| > 0 && Int32Dims(x)
    ensures coalesced.valid <==> plain.valid
    ensures coalesced.valid ==> coalesced.output == plain.output
    ensures coalesced.valid ==>
      && |coalesced.reshape| == |coalesced.bcast| == |plain.reshape| == |plain.bcast| == |x|
      && forall i, o: nat | 0 <= i < |x| && o < Product(plain.output) ::
        && |coalesced.reshape[i]| == |coalesced.bcast[i]| && |plain.reshape[i]| == |plain.bcast[i]|
        && TileIndex(coalesced.reshape[i], coalesced.bcast[i], o) == TileIndex(plain.reshape[i], plain.bcast[i], o)
    ensures coalesced.valid && Product(plain.output) > 0 ==>
      (coalesced.AllAtMost(TWO_63 - 1) <==> Product(plain.output) < TWO_63)
      && (plain.AllAtMost(TWO_63 - 1) <==> Product(plain.output) < TWO_63)
    ensures coalesced.valid && Room(plain.output) < TWO_63 ==>
      coalesced.AllAtMost(TWO_63 - 1) && plain.AllAtMost(TWO_63 - 1)
  {
    hide Room, IsBroadcastShape, Product, TileIndex, BroadcastIndex, ReducesToInput, Compatible, IsUnitAxes, Coalesced;
    hide BCastList.FollowsRule;
    coalesced := new BCastList(x, true, false);
    plain := new BCastList(x, false, false);
    if coalesced.valid {
      ghost var aligned := AlignAll(x);
      BroadcastShapeUnique(aligned, coalesced.output, plain.output);
      forall i | 0 <= i < |x|
        ensures |coalesced.reshape[i]| == |coalesced.bcast[i]| && |plain.reshape[i]| == |plain.bcast[i]|
        ensures forall o: nat | o < Product(plain.output) ::
          TileIndex(coalesced.reshape[i], coalesced.bcast[i], o) == TileIndex(plain.reshape[i], plain.bcast[i], o)
      {
        assert OperandReady(coalesced.reshape[i], coalesced.bcast[i], coalesced.result, aligned[i],
                            coalesced.output, coalesced.gradReduceIdx[i]);
        assert OperandReady(plain.reshape[i], plain.bcast[i], plain.result, aligned[i],
                            plain.output, plain.gradReduceIdx[i]);
      }
    }
  }

  /** The dimensions before the two matrix dimensions. */
  function BatchDims(s: Shape): Shape
    requires |s| >= 2
  {
    s[..|s| - 2]
  }

  /** The last two dimensions are those of the matrices. */
  lemma BatchAndMatrixDims(b: Shape, m: nat, n: nat)
    ensures BatchDims(b + [m, n]) == b
  {
    assert (b + [m, n])[..|b|] == b;
  }

  /** The k-th batch sizes, counted outwards from the matrix dimensions, are equal or one of them is 1. */
  ghost predicate BatchMatchAt(x: Shape, y: Shape, k: nat) {
    k + 2 < |x| && k + 2 < |y| ==>
      x[|x| - 3 - k] == y[|y| - 3 - k] || x[|x| - 3 - k] == 1 || y[|y| - 3 - k] == 1
  }

  /** The k-th batch size of the output is the one size other than 1 of the operands that have such a dimension. */
  ghost predicate BatchOutputAt(x: Shape, y: Shape, output: Shape, k: nat)
    requires k < |output|
  {
    var a := if k + 2 < |x| then x[|x| - 3 - k] else 1;
    var b := if k + 2 < |y| then y[|y| - 3 - k] else 1;
    output[|output| - 1 - k] == if a == 1 then b else a
  }

  lemma BatchesMatch(x: Shape, y: Shape)
    requires |x| >= 2 && |y| >= 2
    ensures BatchesCompatible(x, y) <==> forall k: nat :: BatchMatchAt(x, y, k)
  {
    var xs := [BatchDims(x), BatchDims(y)];
    CompatibleIffMatching(xs);
    hide Compatible;
    forall k: nat ensures MatchAt(xs, k) <==> BatchMatchAt(x, y, k) {
      BatchesMatchAt(x, y, k);
    }
  }

  lemma BatchesMatchAt(x: Shape, y: Shape, k: nat)
    requires |x| >= 2 && |y| >= 2
    ensures MatchAt([BatchDims(x), BatchDims(y)], k) <==> BatchMatchAt(x, y, k)
  {
    var xs := [BatchDims(x), BatchDims(y)];
    assert |xs| == 2 && xs[0] == x[..|x| - 2] && xs[1] == y[..|y| - 2];
    assert k < |xs[0]| ==> xs[0][|xs[0]| - 1 - k] == x[|x| - 3 - k];
    assert k < |xs[1]| ==> xs[1][|xs[1]| - 1 - k] == y[|y| - 3 - k];
  }

  lemma BatchOutputMatched(x: Shape, y: Shape, output: Shape)
    requires |x| >= 2 && |y| >= 2 && IsMatchedShape([BatchDims(x), BatchDims(y)], output)
    ensures |output| == (if |x| < |y| then |y| - 2 else |x| - 2)
    ensures forall k: nat | k < |output| :: BatchOutputAt(x, y, output, k)
  {
    var xs := [BatchDims(x), BatchDims(y)];
    assert |xs| == 2 && xs[0] == x[..|x| - 2] && xs[1] == y[..|y| - 2];
    forall k: nat | k < |output| ensures BatchOutputAt(x, y, output, k) {
      assert OutputAt(xs, output, k);
      assert k < |xs[0]| ==> xs[0][|xs[0]| - 1 - k] == x[|x| - 3 - k];
      assert k < |xs[1]| ==> xs[1][|xs[1]| - 1 - k] == y[|y| - 3 - k];
    }
  }

  ghost predicate BatchesCompatible(x: Shape, y: Shape)
    requires |x| >= 2 && |y| >= 2
  {
    Compatible(AlignAll([BatchDims(x), BatchDims(y)]), MaxRank([BatchDims(x), BatchDims(y)]))
  }

  class MatMulBCast {
    var batchBCast: BCastList?
    var broadcastingRequired: bool
    var xBatchSize: nat
    var yBatchSize: nat
    var outputBatchShape: Shape
    var outputBatchSize: nat
    var xBatchIndices: seq<nat>
    var yBatchIndices: seq<nat>

    constructor (x: Shape, y: Shape)
      requires |x| >= 2 && |y| >= 2 ==> Int32Dims([x[..|x| - 2], y[..|y| - 2]])
      requires (|x| <= 2 && |y| == 2) || (|x| == 2 && |y| <= 2) || (|x| >= 2 && |y| >= 2)
      ensures |x| <= 2 && |y| <= 2 ==> IsValid() && !broadcastingRequired && outputBatchSize == 1
      ensures |x| >= 2 && |y| >= 2 ==> (IsValid() <==> BatchesCompatible(x, y))
      ensures |x| >= 2 && |y| >= 2 && IsValid() ==> ReadsBatches(x, y)
      ensures |x| >= 2 && |y| >= 2 ==> (IsValid() <==> forall k: nat :: BatchMatchAt(x, y, k))
      ensures |x| >= 2 && |y| >= 2 && IsValid() ==> FollowsRule(x, y)
      ensures IsValid() && batchBCast != null && outputBatchSize > 0 ==>
        (batchBCast.AllAtMost(TWO_63 - 1) <==> outputBatchSize < TWO_63)
    {
      batchBCast, broadcastingRequired := null, false;
      xBatchSize, yBatchSize, outputBatchShape, outputBatchSize := 1, 1, [], 1;
      xBatchIndices, yBatchIndices := [], [];
      new;
      if |x| <= 2 && |y| <= 2 {
        if |x| == 2 && |y| == 2 {
          NoBatchDims(BatchDims(x), BatchDims(y));
        }
      } else {
        BroadcastBatches(x, y);
      }
      if |x| >= 2 && |y| >= 2 {
        BatchesMatch(x, y);
        if IsValid() { ReadsFollowsRule(x, y); }
      }
    }

    lemma ReadsFollowsRule(x: Shape, y: Shape)
      requires |x| >= 2 && |y| >= 2 && ReadsBatches(x, y)
      ensures FollowsRule(x, y)
    {
      hide IsBroadcastShape, Product, BroadcastIndex, ReadAt, BatchOutputAt, IsMatchedShape, IsIndexTable, IsReadTable, MaxRank;
      var xs, rank := [BatchDims(x), BatchDims(y)], |outputBatchShape|;
      assert |xs| == 2 && xs[0] == x[..|x| - 2] && xs[1] == y[..|y| - 2];
      OutputMatched(xs, outputBatchShape);
      BatchOutputMatched(x, y, outputBatchShape);
      assert |xs[0]| <= rank && |xs[1]| <= rank;
      AlignedProduct(xs[0], rank);
      AlignedProduct(xs[1], rank);
      if broadcastingRequired {
        IndexTableRead(xBatchIndices, xs[0], outputBatchShape);
        IndexTableRead(yBatchIndices, xs[1], outputBatchShape);
      } else {
        forall o: nat | o < outputBatchSize
          ensures ReadAt(xs[0], outputBatchShape, o) == o == ReadAt(xs[1], outputBatchShape, o)
        {
          AlignedRead(xs[0], outputBatchShape, o);
          AlignedRead(xs[1], outputBatchShape, o);
        }
      }
    }

    method BroadcastBatches(x: Shape, y: Shape)
      requires |x| >= 2 && |y| >= 2 && Int32Dims([BatchDims(x), BatchDims(y)]) && !broadcastingRequired
      modifies this
      ensures IsValid() <==> BatchesCompatible(x, y)
      ensures IsValid() ==> ReadsBatches(x, y)
      ensures IsValid() && batchBCast != null && outputBatchSize > 0 ==>
        (batchBCast.AllAtMost(TWO_63 - 1) <==> outputBatchSize < TWO_63)
    {
      hide Room, OperandReady, IsBroadcastShape, Product, Compatible, IsUnitAxes, Coalesced, IsIndexTable, BroadcastIndex;
      hide BCastList.FollowsRule;
      var b := new BCastList([BatchDims(x), BatchDims(y)], true, false);
      batchBCast := b;
      if !b.valid {
        broadcastingRequired := true;
        return;
      }
      UseBroadcast(b, AlignAll([BatchDims(x), BatchDims(y)]), MaxRank([BatchDims(x), BatchDims(y)]));
    }

    method UseBroadcast(b: BCastList, ghost aligned: seq<Shape>, ghost rank: nat)
      requires |aligned| == 2 && SameRank(aligned, rank) && b.Ready(aligned, rank)
      modifies this`xBatchSize, this`yBatchSize, this`outputBatchShape, this`outputBatchSize,
               this`broadcastingRequired, this`xBatchIndices, this`yBatchIndices
      ensures |outputBatchShape| == rank && Reads(aligned) && outputBatchShape == b.output
    {
      hide IsBroadcastShape, Product, ReducesToInput;
      assert OperandReady(b.reshape[0], b.bcast[0], b.result, aligned[0], b.output, b.gradReduceIdx[0]);
      assert OperandReady(b.reshape[1], b.bcast[1], b.result, aligned[1], b.output, b.gradReduceIdx[1]);
      xBatchSize := ElementCount(b.reshape[0]);
      yBatchSize := ElementCount(b.reshape[1]);
      outputBatchShape := b.output;
      outputBatchSize := ElementCount(outputBatchShape);
      broadcastingRequired := Min(xBatchSize, yBatchSize) != outputBatchSize;
      if broadcastingRequired {
        RequiredMeansNonEmpty(aligned, b.output);
        xBatchIndices := BatchTable(b.reshape[0], b.bcast[0], aligned[0]);
        yBatchIndices := BatchTable(b.reshape[1], b.bcast[1], aligned[1]);
      } else {
        NotRequiredMeansInOrder(aligned, b.output);
      }
    }

    method BatchTable(reshape: Shape, bcast: Shape, ghost input: Shape) returns (table: seq<nat>)
      requires outputBatchSize == Product(outputBatchShape) > 0
      requires Represents(reshape, bcast, input, outputBatchShape)
      ensures IsIndexTable(table, input, outputBatchShape)
    {
      hide Product, TileIndex, BroadcastIndex;
      var indices := ComputeBatchIndices(outputBatchSize, reshape, bcast);
      table := indices[..];
    }

    predicate IsValid()
      reads this, batchBCast
    {
      !broadcastingRequired || (batchBCast != null && batchBCast.valid)
    }

    /** Which batch of each operand an output batch uses: the tables when broadcasting is required, the
        output batch's own number otherwise. */
    ghost predicate Reads(aligned: seq<Shape>)
      requires |aligned| == 2 && SameRank(aligned, |outputBatchShape|)
      reads this
    {
      && IsBroadcastShape(aligned, outputBatchShape) && outputBatchSize == Product(outputBatchShape)
      && xBatchSize == Product(aligned[0]) && yBatchSize == Product(aligned[1])
      && (broadcastingRequired <==> Min(xBatchSize, yBatchSize) != outputBatchSize)
      && if broadcastingRequired then
           && outputBatchSize > 0
           && IsIndexTable(xBatchIndices, aligned[0], outputBatchShape)
           && IsIndexTable(yBatchIndices, aligned[1], outputBatchShape)
         else
           forall o: nat | o < outputBatchSize ::
             BroadcastIndex(aligned[0], outputBatchShape, o) == o == BroadcastIndex(aligned[1], outputBatchShape, o)
    }

    /** The same for the operands as they are given: everything before their last two dimensions. */
    ghost predicate FollowsRule(x: Shape, y: Shape)
      requires |x| >= 2 && |y| >= 2
      reads this
    {
      && |outputBatchShape| == (if |x| < |y| then |y| - 2 else |x| - 2)
      && (forall k: nat | k < |outputBatchShape| :: BatchOutputAt(x, y, outputBatchShape, k))
      && outputBatchSize == Product(outputBatchShape)
      && xBatchSize == Product(x[..|x| - 2]) && yBatchSize == Product(y[..|y| - 2])
      && (broadcastingRequired <==> outputBatchSize != if xBatchSize < yBatchSize then xBatchSize else yBatchSize)
      && if broadcastingRequired then
           && outputBatchSize > 0
           && IsReadTable(xBatchIndices, x[..|x| - 2], outputBatchShape)
           && IsReadTable(yBatchIndices, y[..|y| - 2], outputBatchShape)
         else
           IsReadInOrder(x[..|x| - 2], outputBatchShape) && IsReadInOrder(y[..|y| - 2], outputBatchShape)
    }

    ghost predicate ReadsBatches(x: Shape, y: Shape)
      requires |x| >= 2 && |y| >= 2
      reads this
    {
      && |outputBatchShape| == MaxRank([BatchDims(x), BatchDims(y)])
      && Reads(AlignAll([BatchDims(x), BatchDims(y)]))
    }
  }

  /** Matrices of other sizes, at the same batch dimensions, are broadcast in the same way. */
  method MatrixDimsDoNotMatter(xb: Shape, yb: Shape, p: seq<nat>, q: seq<nat>, r: seq<nat>, s: seq<nat>)
    returns (one: MatMulBCast, other: MatMulBCast)
    requires Int32Dims([xb, yb]) && |p| == |q| == |r| == |s| == 2
    ensures one.IsValid() <==> other.IsValid()
    ensures one.IsValid() ==>
      && one.outputBatchShape == other.outputBatchShape && one.outputBatchSize == other.outputBatchSize
      && one.xBatchSize == other.xBatchSize && one.yBatchSize == other.yBatchSize
      && one.broadcastingRequired == other.broadcastingRequired
      && (one.broadcastingRequired ==>
           one.xBatchIndices == other.xBatchIndices && one.yBatchIndices == other.yBatchIndices)
  {
    assert (xb + p)[..|xb|] == xb == (xb + r)[..|xb|] && (yb + q)[..|yb|] == yb == (yb + s)[..|yb|];
    one := new MatMulBCast(xb + p, yb + q);
    other := new MatMulBCast(xb + r, yb + s);
    forall k: nat ensures BatchMatchAt(xb + p, yb + q, k) <==> BatchMatchAt(xb + r, yb + s, k) {}
    if one.IsValid() {
      SameBatchOutput(xb, yb, p, q, r, s, one.outputBatchShape, other.outputBatchShape);
      if one.broadcastingRequired {
        TableUnique(xb, one.outputBatchShape, one.xBatchIndices, other.xBatchIndices);
        TableUnique(yb, one.outputBatchShape, one.yBatchIndices, other.yBatchIndices);
      }
    }
  }

  lemma SameBatchOutput(xb: Shape, yb: Shape, p: seq<nat>, q: seq<nat>, r: seq<nat>, s: seq<nat>, a: Shape, b: Shape)
    requires |p| == |q| == |r| == |s| == 2 && |a| == |b|
    requires forall k: nat | k < |a| :: BatchOutputAt(xb + p, yb + q, a, k)
    requires forall k: nat | k < |a| :: BatchOutputAt(xb + r, yb + s, b, k)
    ensures a == b
  {
    forall l: nat | l < |a| ensures a[l] == b[l] {
      var k := |a| - 1 - l;
      assert BatchOutputAt(xb + p, yb + q, a, k) && BatchOutputAt(xb + r, yb + s, b, k);
    }
  }

  lemma TableUnique(x: Shape, output: Shape, a: seq<nat>, b: seq<nat>)
    requires |x| <= |output| && IsReadTable(a, x, output) && IsReadTable(b, x, output)
    ensures a == b
  {}

  lemma NoBatchDims(x: Shape, y: Shape)
    requires x == y == []
    ensures MaxRank([x, y]) == 0 && AlignAll([x, y]) == [[], []]
    ensures Compatible(AlignAll([x, y]), 0) && IsBroadcastShape(AlignAll([x, y]), [])
    ensures Product([]) == 1 && forall o: nat | o < 1 :: BroadcastIndex([], [], o) == o
  {
    IdenticalOperands([x, y]);
  }

  lemma EmptyAxis(s: Shape, k: nat)
    requires k < |s| && s[k] == 0
    ensures Product(s) == 0
  {
    ProductPositive(s);
  }

  /** An empty output comes from an operand that is empty itself. */
  lemma EmptyOutput(aligned: seq<Shape>, output: Shape, k: nat)
    requires |aligned| == 2 && SameRank(aligned, |output|) && k < |output|
    requires IsOutputDim(aligned, k, 0)
    ensures Product(aligned[0]) == 0 || Product(aligned[1]) == 0
  {
    hide Product;
    if aligned[0][k] == 0 {
      EmptyAxis(aligned[0], k);
    } else {
      assert aligned[1][k] == 0;
      EmptyAxis(aligned[1], k);
    }
  }

  lemma RequiredMeansNonEmpty(aligned: seq<Shape>, output: Shape)
    requires |aligned| == 2 && SameRank(aligned, |output|) && IsBroadcastShape(aligned, output)
    requires Product(output) != Min(Product(aligned[0]), Product(aligned[1]))
    ensures Product(output) > 0
  {
    hide Product;
    ProductPositive(output);
    if k :| 0 <= k < |output| && output[k] == 0 {
      assert IsOutputDim(aligned, k, output[k]);
      EmptyAxis(output, k);
      EmptyOutput(aligned, output, k);
    }
  }

  lemma NotRequiredMeansInOrder(aligned: seq<Shape>, output: Shape)
    requires |aligned| == 2 && SameRank(aligned, |output|) && IsBroadcastShape(aligned, output)
    requires Product(output) == Min(Product(aligned[0]), Product(aligned[1]))
    ensures forall o: nat | o < Product(output) ::
        BroadcastIndex(aligned[0], output, o) == o == BroadcastIndex(aligned[1], output, o)
  {
    FitsOutput(aligned, output, 0);
    FitsOutput(aligned, output, 1);
    forall o: nat | o < Product(output)
      ensures BroadcastIndex(aligned[0], output, o) == o == BroadcastIndex(aligned[1], output, o)
    {
      ProductAtMost(aligned[0], output);
      ProductAtMost(aligned[1], output);
      FullSizeInputIsReadInOrder(aligned[0], output, o);
      FullSizeInputIsReadInOrder(aligned[1], output, o);
    }
  }
}
