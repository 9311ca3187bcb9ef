/** ComputeBatchIndices: the output-to-input index table, filled in place. */
module BatchIndices {
  import opened DivMod
  import opened BroadcastRule

  /** What ComputeBatchIndices demands: every axis is kept (bcast 1) or repeated (reshape 1). */
  ghost predicate KeptOrRepeated(reshape: Shape, bcast: Shape)
    requires |reshape| == |bcast|
  {
    forall k | 0 <= k < |reshape| :: reshape[k] == 1 || bcast[k] == 1
  }

  /** The entry at position o when the n inner entries are replicated, each block incr further on. */
  ghost function Entry(reshape: Shape, bcast: Shape, n: nat, incr: nat, o: nat): nat
    requires |reshape| == |bcast| && n > 0
  {
    if o < n then TileIndex(reshape, bcast, o) else Entry(reshape, bcast, n, incr, o - n) + incr
  }

  lemma {:induction false} EntryByBlock(reshape: Shape, bcast: Shape, n: nat, incr: nat, o: nat)
    requires |reshape| == |bcast| && n > 0
    ensures Entry(reshape, bcast, n, incr, o) == (o / n) * incr + TileIndex(reshape, bcast, o % n)
  {
    if o < n {
      FirstBlock(o, n, incr);
    } else {
      EntryByBlock(reshape, bcast, n, incr, o - n);
      BlockStep(o, n, incr);
    }
  }

  /** With all its blocks filled, the table is the table of the shape with the outer axis added. */
  lemma OuterAxisEntry(a: nat, reshape: Shape, b: nat, bcast: Shape, n: nat, o: nat)
    requires |reshape| == |bcast| && (a == 1 || b == 1) && a > 0
    requires n == Product(Tiled(reshape, bcast)) > 0
    requires o < a * b * n
    ensures TileIndex([a] + reshape, [b] + bcast, o)
         == Entry(reshape, bcast, n, if b > 1 then 0 else Product(reshape), o)
  {
    TileIndexCons(a, reshape, b, bcast, o);
    WrappedCoordinate(a, b, n, Product(reshape), o);
    EntryByBlock(reshape, bcast, n, if b > 1 then 0 else Product(reshape), o);
  }

  ghost predicate Filled(a: array<nat>, count: nat, reshape: Shape, bcast: Shape)
    requires |reshape| == |bcast|
    reads a
  {
    count <= a.Length && forall o | 0 <= o < count :: a[o] == TileIndex(reshape, bcast, o)
  }

  lemma AxisFilled(table: array<nat>, a: nat, reshape: Shape, b: nat, bcast: Shape, n: nat, incr: nat, count: nat)
    requires |reshape| == |bcast| && (a == 1 || b == 1) && a > 0
    requires n == Product(Tiled(reshape, bcast)) > 0 && count == a * b * n <= table.Length
    requires incr == if b > 1 then 0 else Product(reshape)
    requires forall o: nat | o < count :: table[o] == Entry(reshape, bcast, n, incr, o)
    ensures Filled(table, count, [a] + reshape, [b] + bcast)
  {
    forall o: nat | o < count ensures table[o] == TileIndex([a] + reshape, [b] + bcast, o) {
      OuterAxisEntry(a, reshape, b, bcast, n, o);
    }
  }

  /** The inner loop: it also reads entries that it has written itself. */
  method Replicate(outIndices: array<nat>, numOutputElements: nat, replicas: nat, incr: nat, ghost r: Shape, ghost b: Shape)
    requires |r| == |b| && Filled(outIndices, numOutputElements, r, b)
    requires 0 < numOutputElements && numOutputElements + replicas <= outIndices.Length
    modifies outIndices
    ensures forall o: nat | o < numOutputElements + replicas :: outIndices[o] == Entry(r, b, numOutputElements, incr, o)
  {
    hide TileIndex;
    var k := 0;
    while k < replicas
      invariant k <= replicas
      invariant forall o: nat | o < numOutputElements + k :: outIndices[o] == Entry(r, b, numOutputElements, incr, o)
    {
      outIndices[numOutputElements + k] := outIndices[k] + incr;
      k := k + 1;
    }
  }

  /** One turn of the outer loop: the axis with entries (reshape, bcast) is added outside the axes (r, b). */
  method AddAxis(outIndices: array<nat>, reshape: nat, bcast: nat, outputs: nat, inputs: nat, ghost r: Shape, ghost b: Shape)
    returns (numOutputElements: nat, numInputElements: nat)
    requires |r| == |b| && (reshape == 1 || bcast == 1)
    requires outputs == Product(Tiled(r, b)) && inputs == Product(r)
    requires 0 < Product(Tiled([reshape] + r, [bcast] + b)) <= outIndices.Length
    requires Filled(outIndices, outputs, r, b)
    modifies outIndices
    ensures numOutputElements == Product(Tiled([reshape] + r, [bcast] + b))
    ensures numInputElements == Product([reshape] + r)
    ensures Filled(outIndices, numOutputElements, [reshape] + r, [bcast] + b)
  {
    hide *;
    var dim := if reshape < bcast then bcast else reshape;
    var incr := if bcast > 1 then 0 else inputs;
    OneMoreAxis(reshape, r, bcast, b, dim, outputs);
    Replicate(outIndices, outputs, (dim - 1) * outputs, incr, r, b);
    AxisFilled(outIndices, reshape, r, bcast, b, outputs, incr, dim * outputs);
    numOutputElements := outputs * dim;
    numInputElements := inputs * reshape;
  }

  method ComputeBatchIndices(outputBatchSize: nat, reshape: Shape, bcast: Shape) returns (outIndices: array<nat>)
    requires |reshape| == |bcast| && KeptOrRepeated(reshape, bcast)
    requires outputBatchSize == Product(Tiled(reshape, bcast)) > 0
    ensures outIndices.Length == outputBatchSize
    ensures forall o | 0 <= o < outputBatchSize :: outIndices[o] == TileIndex(reshape, bcast, o)
    ensures forall o | 0 <= o < outputBatchSize :: outIndices[o] < Product(reshape)
  {
    outIndices := new nat[outputBatchSize](_ => 0);
    var numOutputElements, numInputElements := 1, 1;
    var i := |reshape| - 1;
    assert reshape[|reshape|..] == [] && bcast[|reshape|..] == [];
    assert Product(Tiled([], [])) == 1 && Product([]) == 1 && Filled(outIndices, 1, [], []);
    hide *;
    while i >= 0
      invariant -1 <= i < |reshape|
      invariant numOutputElements == Product(Tiled(reshape[i + 1..], bcast[i + 1..]))
      invariant numInputElements == Product(reshape[i + 1..])
      invariant Filled(outIndices, numOutputElements, reshape[i + 1..], bcast[i + 1..])
    {
      AxisFits(reshape, bcast, i);
      numOutputElements, numInputElements := AddAxis(outIndices, reshape[i], bcast[i], numOutputElements, numInputElements,
                                                     reshape[i + 1..], bcast[i + 1..]);
      i := i - 1;
    }
    assert reshape[0..] == reshape && bcast[0..] == bcast;
    WholeTable(outIndices, reshape, bcast);
  }

  lemma WholeTable(table: array<nat>, reshape: Shape, bcast: Shape)
    requires |reshape| == |bcast| && Product(Tiled(reshape, bcast)) > 0
    requires Filled(table, Product(Tiled(reshape, bcast)), reshape, bcast)
    ensures forall o | 0 <= o < Product(Tiled(reshape, bcast)) ::
              o < table.Length && table[o] == TileIndex(reshape, bcast, o) < Product(reshape)
  {
    RangeOfAll(reshape, bcast);
  }

  /** The arithmetic of adding an axis: dim blocks of n entries make up the new table. */
  lemma OneMoreAxis(reshape: nat, r: Shape, bcast: nat, b: Shape, dim: nat, n: nat)
    requires |r| == |b| && (reshape == 1 || bcast == 1)
    requires dim == if reshape < bcast then bcast else reshape
    requires n == Product(Tiled(r, b)) && Product(Tiled([reshape] + r, [bcast] + b)) > 0
    ensures dim == reshape * bcast && reshape > 0 && n > 0
    ensures 0 <= (dim - 1) * n == dim * n - n
    ensures 0 < n * dim == dim * n == Product(Tiled([reshape] + r, [bcast] + b))
    ensures Product([reshape] + r) == Product(r) * reshape
  {
    hide *;
    assert Product([reshape] + r) == Product(r) * reshape by {
      ProductCons(reshape, r);
    }
    TiledCons(reshape, r, bcast, b);
    BlockCount(reshape, bcast, n, dim);
  }

  /** Axis i can be added: its table fits into the whole table. */
  lemma AxisFits(reshape: Shape, bcast: Shape, i: nat)
    requires |reshape| == |bcast| && KeptOrRepeated(reshape, bcast) && i < |reshape|
    requires Product(Tiled(reshape, bcast)) > 0
    ensures reshape[i..] == [reshape[i]] + reshape[i + 1..] && bcast[i..] == [bcast[i]] + bcast[i + 1..]
    ensures 0 < Product(Tiled(reshape[i..], bcast[i..])) <= Product(Tiled(reshape, bcast))
    ensures reshape[i] == 1 || bcast[i] == 1
  {
    SuffixFits(reshape, bcast, i);
  }

  /** The table of the axes from i inwards is a prefix of the whole table. */
  lemma {:induction false} SuffixFits(reshape: Shape, bcast: Shape, i: nat)
    requires |reshape| == |bcast| && i <= |reshape|
    requires Product(Tiled(reshape, bcast)) > 0
    ensures 0 < Product(Tiled(reshape[i..], bcast[i..])) <= Product(Tiled(reshape, bcast))
  {
    ProductPositive(Tiled(reshape, bcast));
    if i == 0 {
      assert reshape[0..] == reshape && bcast[0..] == bcast;
    } else {
      var r, b := reshape[1..], bcast[1..];
      assert reshape == [reshape[0]] + r && bcast == [bcast[0]] + b;
      TiledCons(reshape[0], r, bcast[0], b);
      MulPositive(reshape[0] * bcast[0], Product(Tiled(r, b)));
      SuffixFits(r, b, i - 1);
      assert reshape[i..] == r[i - 1..] && bcast[i..] == b[i - 1..];
      MulMonotone(1, reshape[0] * bcast[0], Product(Tiled(r, b)));
    }
  }

  lemma RangeOfAll(reshape: Shape, bcast: Shape)
    requires |reshape| == |bcast| && Product(Tiled(reshape, bcast)) > 0
    ensures forall o: nat :: TileIndex(reshape, bcast, o) < Product(reshape)
  {
    ProductPositive(Tiled(reshape, bcast));
    ProductPositive(reshape);
    TiledAt(reshape, bcast);
    forall k | 0 <= k < |reshape| ensures reshape[k] > 0 {
      assert Tiled(reshape, bcast)[k] > 0;
      MulPositive(reshape[k], bcast[k]);
    }
    forall o: nat ensures TileIndex(reshape, bcast, o) < Product(reshape) {
      TileIndexInRange(reshape, bcast, o);
    }
  }
}
