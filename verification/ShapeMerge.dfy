/** Compatibility and merging of PartialTensorShapes: MergeWith is a meet. */
module ShapeMerge {
  import opened Memory
  import opened ShapeRep
  import opened ShapeSpec
  import opened TensorShape

  predicate Agree(x: int, y: int) {
    x >= 0 && y >= 0 ==> x == y
  }

  predicate Compatible(a: Contents, b: Contents) {
    || a.UnknownRank? || b.UnknownRank?
    || (|a.dims| == |b.dims| && forall i | 0 <= i < |a.dims| :: Agree(a.dims[i], b.dims[i]))
  }

  function Zip(a: Dims, b: Dims): (c: Dims)
    requires |a| == |b|
    ensures |c| == |a|
  {
    seq(|a|, i requires 0 <= i < |a| => if a[i] >= 0 then a[i] else b[i])
  }

  function Merged(a: Contents, b: Contents): Contents
    requires Compatible(a, b)
  {
    if a.UnknownRank? then b else if b.UnknownRank? then a else Known(Zip(a.dims, b.dims))
  }

  /** The concrete dimensions are among those that the partial shape stands for. */
  predicate Matches(full: Dims, c: Contents) {
    c.UnknownRank? || (|full| == |c.dims| && forall i | 0 <= i < |full| :: c.dims[i] < 0 || c.dims[i] == full[i])
  }

  predicate IsConcrete(full: Dims) {
    forall i | 0 <= i < |full| :: full[i] >= 0
  }

  // ---------------------------------------------------------------- a meet

  /** The merged shape stands for exactly the concrete shapes that both arguments stand for. */
  lemma MergedMatchesBoth(a: Contents, b: Contents, full: Dims)
    requires Compatible(a, b) && IsConcrete(full)
    ensures Matches(full, Merged(a, b)) <==> Matches(full, a) && Matches(full, b)
  {
    if a.Known? && b.Known? && |full| == |a.dims| {
      assert forall i | 0 <= i < |full| :: Agree(a.dims[i], b.dims[i]);
      assert forall i | 0 <= i < |full| :: Zip(a.dims, b.dims)[i] == if a.dims[i] >= 0 then a.dims[i] else b.dims[i];
    }
  }

  /** Two shapes are compatible exactly when some concrete shape is one of both. */
  lemma CompatibleIffCommon(a: Contents, b: Contents)
    ensures Compatible(a, b) <==> exists full :: IsConcrete(full) && Matches(full, a) && Matches(full, b)
  {
    if Compatible(a, b) {
      var dims := if Merged(a, b).UnknownRank? then [] else Merged(a, b).dims;
      var full := seq(|dims|, i requires 0 <= i < |dims| => if dims[i] >= 0 then dims[i] else 0);
      assert IsConcrete(full) && Matches(full, Merged(a, b));
      MergedMatchesBoth(a, b, full);
    }
  }

  lemma MergeCommutes(a: Contents, b: Contents)
    requires IsContents(true, a) && IsContents(true, b)
    ensures Compatible(a, b) <==> Compatible(b, a)
    ensures Compatible(a, b) ==> Merged(a, b) == Merged(b, a)
  {
    if a.Known? && b.Known? && |a.dims| == |b.dims| {
      forall i | 0 <= i < |a.dims|
        ensures Agree(a.dims[i], b.dims[i]) <==> Agree(b.dims[i], a.dims[i])
        ensures Agree(a.dims[i], b.dims[i]) ==> Zip(a.dims, b.dims)[i] == Zip(b.dims, a.dims)[i]
      {
        assert IsSize(true, a.dims[i]) && IsSize(true, b.dims[i]);
      }
      assert Compatible(a, b) ==> Zip(a.dims, b.dims) == Zip(b.dims, a.dims);
    }
  }

  lemma MergeIdempotent(a: Contents)
    ensures Compatible(a, a) && Merged(a, a) == a
  {}

  lemma MergeAssociates(a: Contents, b: Contents, c: Contents)
    ensures Compatible(a, b) && Compatible(Merged(a, b), c) <==> Compatible(b, c) && Compatible(a, Merged(b, c))
    ensures Compatible(a, b) && Compatible(Merged(a, b), c) ==> Merged(Merged(a, b), c) == Merged(a, Merged(b, c))
  {
    if a.Known? && b.Known? && c.Known? && |a.dims| == |b.dims| == |c.dims| {
      AgreeAssociates(a.dims, b.dims, c.dims);
    }
  }

  lemma AgreeAssociates(a: Dims, b: Dims, c: Dims)
    requires |a| == |b| == |c|
    ensures Compatible(Known(a), Known(b)) && Compatible(Known(Zip(a, b)), Known(c))
       <==> Compatible(Known(b), Known(c)) && Compatible(Known(a), Known(Zip(b, c)))
    ensures Zip(Zip(a, b), c) == Zip(a, Zip(b, c))
  {
    if Compatible(Known(a), Known(b)) && Compatible(Known(Zip(a, b)), Known(c)) {
      forall i | 0 <= i < |a| ensures Agree(b[i], c[i]) && Agree(a[i], Zip(b, c)[i]) {
        assert Agree(a[i], b[i]) && Agree(Zip(a, b)[i], c[i]);
      }
    }
    if Compatible(Known(b), Known(c)) && Compatible(Known(a), Known(Zip(b, c))) {
      forall i | 0 <= i < |a| ensures Agree(a[i], b[i]) && Agree(Zip(a, b)[i], c[i]) {
        assert Agree(b[i], c[i]) && Agree(a[i], Zip(b, c)[i]);
      }
    }
  }

  // ---------------------------------------------------------------- the operations

  method IsCompatibleWith(a: Shape, b: Shape) returns (compatible: bool)
    requires a.isPartial && b.isPartial && a.Valid() && b.Valid()
    ensures compatible <==> Compatible(a.Contents(), b.Contents())
  {
    hide IsKnown, DimsOf, Get16, Get32, Get64, Fits, Elements, AreSizes;
    if a.HasUnknownRank() || b.HasUnknownRank() {
      return true;
    }
    if Rank(a.buf) != Rank(b.buf) {
      return false;
    }
    ghost var x, y := a.Contents().dims, b.Contents().dims;
    var i := 0;
    while i < Rank(a.buf) as int
      invariant i <= |x| && forall j | 0 <= j < i :: Agree(x[j], y[j])
    {
      var dim0 := a.DimSize(i);
      var dim1 := b.DimSize(i);
      if dim0 >= 0 && dim1 >= 0 && dim0 != dim1 {
        assert !Agree(x[i], y[i]);
        return false;
      }
      i := i + 1;
    }
    return true;
  }

  method IsIdenticalTo(a: Shape, b: Shape) returns (identical: bool)
    requires a.isPartial && b.isPartial && a.Valid() && b.Valid()
    ensures identical <==> a.Contents() == b.Contents()
  {
    hide IsKnown, DimsOf, Get16, Get32, Get64, Fits, Elements, AreSizes;
    if a.HasUnknownRank() || b.HasUnknownRank() {
      return a.HasUnknownRank() == b.HasUnknownRank();
    }
    if Rank(a.buf) != Rank(b.buf) {
      return false;
    }
    ghost var x, y := a.Contents().dims, b.Contents().dims;
    var i := 0;
    while i < Rank(a.buf) as int
      invariant i <= |x| && forall j | 0 <= j < i :: x[j] == y[j]
    {
      var dim0 := a.DimSize(i);
      var dim1 := b.DimSize(i);
      if dim0 != dim1 {
        return false;
      }
      i := i + 1;
    }
    assert x == y;
    return true;
  }

  /** Merging runs into no CHECK failure: the sizes merged before the first disagreement multiply within int64. */
  ghost predicate MergeFits(a: Contents, b: Contents) {
    a.Known? && b.Known? && |a.dims| == |b.dims| ==>
      forall n | 0 <= n <= |a.dims| && (forall i | 0 <= i < n :: Agree(a.dims[i], b.dims[i])) :: Fits(Zip(a.dims, b.dims)[..n])
  }

  /** Every AddDim that the merge reaches, up to the first disagreement, passes its CHECKs. */
  ghost predicate MergePasses(x: Dims, y: Dims)
    requires |x| == |y|
  {
    forall i | 0 <= i < |x| && (forall j | 0 <= j <= i :: Agree(x[j], y[j])) ::
      PassesChecks(true, i, Elements(Zip(x, y)[..i]), Zip(x, y)[i])
  }

  /** The CHECKs pass exactly when the merged sizes multiply within int64: for compatible shapes, exactly when the
      merged dimensions fit. */
  lemma MergeChecksAgree(x: Dims, y: Dims)
    requires ValidDims(true, x) && ValidDims(true, y) && |x| == |y|
    ensures MergePasses(x, y) <==> MergeFits(Known(x), Known(y))
    ensures Compatible(Known(x), Known(y)) ==> (MergePasses(x, y) <==> Fits(Zip(x, y)))
  {
    if MergePasses(x, y) {
      forall n | 0 <= n <= |x| && (forall i | 0 <= i < n :: Agree(x[i], y[i])) ensures Fits(Zip(x, y)[..n]) {
        PassingMerge(x, y, n);
      }
    }
    if MergeFits(Known(x), Known(y)) {
      FittingMerge(x, y);
    }
    assert Zip(x, y)[..|x|] == Zip(x, y);
    if Fits(Zip(x, y)) {
      forall n | 0 <= n <= |x| ensures Fits(Zip(x, y)[..n]) {
        FitsPrefix(Zip(x, y), n);
      }
    }
  }

  lemma PassingMerge(x: Dims, y: Dims, n: nat)
    requires |x| == |y| && n <= |x| && MergePasses(x, y) && forall i | 0 <= i < n :: Agree(x[i], y[i])
    ensures Fits(Zip(x, y)[..n])
  {
    hide Fits, Elements, PassesChecks, Agree;
    var z := Zip(x, y)[..n];
    forall i | 0 <= i < n ensures PassesChecks(true, i, Elements(z[..i]), z[i]) {
      assert z[..i] == Zip(x, y)[..i];
    }
    PassingFits(true, z);
  }

  lemma FittingMerge(x: Dims, y: Dims)
    requires ValidDims(true, x) && ValidDims(true, y) && |x| == |y| && MergeFits(Known(x), Known(y))
    ensures MergePasses(x, y)
  {
    hide MergeFits, Elements, Fits;
    forall i | 0 <= i < |x| && (forall j | 0 <= j <= i :: Agree(x[j], y[j]))
      ensures PassesChecks(true, i, Elements(Zip(x, y)[..i]), Zip(x, y)[i])
    {
      NextMerged(x, y, i);
      ElementsSnoc(Zip(x, y)[..i], Zip(x, y)[i]);
    }
  }

  /** Two valid compatible shapes whose merge has too many elements. */
  lemma MergeCanOverflow()
    ensures var a, b := [-1, 0x4000_0000_0000_0000], [0x4000_0000_0000_0000, -1];
      ValidDims(true, a) && ValidDims(true, b) && Compatible(Known(a), Known(b)) && !MergePasses(a, b)
  {
    var big := 0x4000_0000_0000_0000;
    var a, b := [-1, big], [big, -1];
    assert a == ([] + [-1]) + [big] && b == ([] + [big]) + [-1];
    ElementsSnoc([], -1);
    ElementsSnoc([] + [-1], big);
    ElementsSnoc([], big);
    ElementsSnoc([] + [big], -1);
    assert Zip(a, b) == ([] + [big]) + [big];
    ElementsSnoc([] + [big], big);
    MergeChecksAgree(a, b);
  }

  /** Reading a size of a shape that was cleared, which happens when the result is the second argument: the rank is 0
      and the bytes are read in the wrong layout. Merging [65536] with an equal shape into that shape is refused. */
  lemma ClearedIsMisread(buf: Buffer)
    requires IsKnown(true, buf, []) && Tag(buf) == REP32 && DimsOf(true, buf, []) == [0x1_0000]
    ensures var cleared: Buffer := buf[15 := REP16][14 := 0];
      Rank(cleared) == 0 && !Agree(0x1_0000, Loaded(true, Get16(cleared, 0), UNKNOWN_REP16))
  {
    assert DimsOf(true, buf, [])[0] == Get32(buf, 0);
  }

  /** In a build without DCHECKs, a size of a cleared shape is read right as long as old and new layout are that of
      16-bit sizes and only the fields before it have been written. */
  lemma ClearedIsReadInline(buf: Buffer, now: Buffer, d: nat)
    requires IsKnown(true, buf, []) && Tag(buf) == REP16 && d < Rank(buf)
    requires Tag(now) == REP16 && forall i | 2 * d <= i < 2 * d + 2 :: now[i] == buf[i]
    ensures Loaded(true, Get16(now, 2 * d), UNKNOWN_REP16) == DimsOf(true, buf, [])[d]
  {}

  /** For two known ranks that are equal the result is none of the arguments: the source excludes the first one
      with a CHECK; the second one, unless the rank is 0, would be read beyond its rank after it was cleared, which is
      a failure of the DCHECK in dim_size. A build without DCHECKs reads on: see the two lemmas above. */
  method MergeWith(a: Shape, b: Shape, result: Shape) returns (ok: bool)
    requires a.isPartial && b.isPartial && result.isPartial && a.heap == b.heap == result.heap
    requires a.Valid() && b.Valid() && result.Safe() && result.heap.HasRoom()
    requires (result == a || result.Owned() !! a.Owned()) && (result == b || result.Owned() !! b.Owned())
    requires a.Contents().Known? && b.Contents().Known? && |a.Contents().dims| == |b.Contents().dims| ==>
      result != a && (result == b ==> a.Contents().dims == []) && MergePasses(a.Contents().dims, b.Contents().dims)
    modifies result, result.heap
    ensures ok <==> old(Compatible(a.Contents(), b.Contents()))
    ensures ok ==> result.Valid() && result.Contents() == old(Merged(a.Contents(), b.Contents()))
    ensures result != a ==> a.Valid() && a.Contents() == old(a.Contents())
    ensures result != b ==> b.Valid() && b.Contents() == old(b.Contents())
    ensures result.Safe() && OnlyOwn(old(result.heap.cells), old(result.Owned()), result.heap.cells, result.Owned())
  {
    OwnNothing(result.heap.cells, result.Owned());
    if a.HasUnknownRank() {
      result.Assign(b);
      return true;
    }
    if b.HasUnknownRank() {
      result.Assign(a);
      return true;
    }
    if Rank(a.buf) != Rank(b.buf) {
      return false;
    }
    MergeChecksAgree(a.Contents().dims, b.Contents().dims);
    ok := MergeDims(a, b, result);
  }

  lemma NextMerged(x: Dims, y: Dims, i: nat)
    requires |x| == |y| && i < |x| && ValidDims(true, x) && ValidDims(true, y) && MergeFits(Known(x), Known(y))
    requires forall j | 0 <= j <= i :: Agree(x[j], y[j])
    ensures var z := if x[i] >= 0 then x[i] else y[i];
      Zip(x, y)[..i + 1] == Zip(x, y)[..i] + [z] && IsSize(true, z) && ValidDims(true, Zip(x, y)[..i] + [z])
  {
    var z := if x[i] >= 0 then x[i] else y[i];
    assert Zip(x, y)[..i + 1] == Zip(x, y)[..i] + [z];
    var c := Zip(x, y)[..i + 1];
    forall j | 0 <= j < |c| ensures IsSize(true, c[j]) {
      assert IsSize(true, x[j]) && IsSize(true, y[j]);
    }
    assert Fits(Zip(x, y)[..i + 1]);
  }

  lemma Disagree(x: Dims, y: Dims, i: nat)
    requires i < |x| == |y| && !Agree(x[i], y[i])
    ensures !Compatible(Known(x), Known(y))
  {}

  lemma AgreeAll(x: Dims, y: Dims)
    requires |x| == |y| && forall i | 0 <= i < |x| :: Agree(x[i], y[i])
    ensures Compatible(Known(x), Known(y)) && Merged(Known(x), Known(y)) == Known(Zip(x, y))
  {}

  /** AddDim on one shape does not disturb two others. */
  method AddBeside(result: Shape, size: int, a: Shape, b: Shape)
    requires result.CanAdd(size) && result.HasSpace() && a != result && b != result && a.heap == b.heap == result.heap
    requires a.Valid() && b.Valid() && result.Owned() !! a.Owned() && result.Owned() !! b.Owned()
    modifies result, result.heap
    ensures result.Valid() && result.HasSpace() && result.Contents() == Appended(old(result.Contents()), size)
    ensures a.Valid() && a.Contents() == old(a.Contents()) && b.Valid() && b.Contents() == old(b.Contents())
    ensures result.Owned() !! a.Owned() && result.Owned() !! b.Owned()
    ensures OnlyOwn(old(result.heap.cells), old(result.Owned()), result.heap.cells, result.Owned())
  {
    hide IsKnown, DimsOf, Get16, Get32, Fits, Elements, AreSizes;
    result.AddDim(size);
  }

  /** The part of MergeWith for two known ranks that are equal. */
  method MergeDims(a: Shape, b: Shape, result: Shape) returns (ok: bool)
    requires a.isPartial && b.isPartial && result.isPartial && a.heap == b.heap == result.heap && result != a
    requires a.Valid() && b.Valid() && result.Safe() && result.heap.HasRoom()
    requires result.Owned() !! a.Owned() && (result == b || result.Owned() !! b.Owned())
    requires a.Contents().Known? && b.Contents().Known? && |a.Contents().dims| == |b.Contents().dims|
    requires MergeFits(a.Contents(), b.Contents()) && (result == b ==> a.Contents().dims == [])
    modifies result, result.heap
    ensures a.Valid() && a.Contents() == old(a.Contents()) && b.Valid() && b.Contents() == old(b.Contents())
    ensures ok <==> Compatible(a.Contents(), b.Contents())
    ensures ok ==> result.Valid() && result.Contents() == Merged(a.Contents(), b.Contents())
    ensures result.Safe() && OnlyOwn(old(result.heap.cells), old(result.Owned()), result.heap.cells, result.Owned())
  {
    hide IsKnown, DimsOf, Elements, Get16, Get32, Get64, Fits, IsSize, ValidDims, MergeFits, Compatible, Merged;
    ghost var x, y := a.Contents().dims, b.Contents().dims;
    result.Clear();
    ghost var cells := result.heap.cells;
    assert Zip(x, y)[..0] == [];
    hide OnlyOwn;
    ok := MergeLoop(a, b, result, x, y);
    OwnOnly(old(result.heap.cells), old(result.Owned()), cells, {}, result.heap.cells, result.Owned());
  }

  /** The body of the loop: dimension i. */
  method MergeDim(a: Shape, b: Shape, result: Shape, i: nat, ghost x: Dims, ghost y: Dims) returns (agree: bool)
    requires result.isPartial && a.heap == b.heap == result.heap && result != a && result != b
    requires a.Valid() && b.Valid() && a.Contents() == Known(x) && b.Contents() == Known(y) && i < |x| == |y|
    requires a.isPartial && b.isPartial && MergeFits(Known(x), Known(y)) && forall j | 0 <= j < i :: Agree(x[j], y[j])
    requires result.Valid() && result.HasSpace() && result.Contents() == Known(Zip(x, y)[..i])
    requires result.Owned() !! a.Owned() && result.Owned() !! b.Owned()
    modifies result, result.heap
    ensures agree <==> Agree(x[i], y[i])
    ensures !agree ==> result.heap.cells == old(result.heap.cells) && result.Owned() == old(result.Owned())
    ensures a.Valid() && b.Valid() && a.Contents() == Known(x) && b.Contents() == Known(y)
    ensures result.Valid() && result.HasSpace() && (!agree ==> result.Contents() == old(result.Contents()))
    ensures result.Valid() && (agree ==> result.Contents() == Known(Zip(x, y)[..i + 1]))
    ensures result.Owned() !! a.Owned() && result.Owned() !! b.Owned()
    ensures OnlyOwn(old(result.heap.cells), old(result.Owned()), result.heap.cells, result.Owned())
  {
    hide IsKnown, DimsOf, Elements, Get16, Get32, Get64, Fits, IsSize, ValidDims, MergeFits;
    var dim0 := a.DimSize(i);
    var dim1 := b.DimSize(i);
    if dim0 >= 0 && dim1 >= 0 && dim0 != dim1 {
      OwnNothing(result.heap.cells, result.Owned());
      return false;
    }
    assert Agree(x[i], y[i]);
    NextMerged(x, y, i);
    hide Zip, OnlyOwn;
    AddBeside(result, if dim0 >= 0 then dim0 else dim1, a, b);
    return true;
  }

  method MergeLoop(a: Shape, b: Shape, result: Shape, ghost x: Dims, ghost y: Dims) returns (ok: bool)
    requires result.isPartial && a.heap == b.heap == result.heap && result != a && (result == b ==> x == [])
    requires a.Valid() && b.Valid() && a.Contents() == Known(x) && b.Contents() == Known(y) && |x| == |y|
    requires a.isPartial && b.isPartial && MergeFits(Known(x), Known(y))
    requires result.Valid() && result.Contents() == Known([]) && result.Owned() == {} && result.HasSpace()
    modifies result, result.heap
    ensures a.Valid() && b.Valid() && a.Contents() == Known(x) && b.Contents() == Known(y)
    ensures ok <==> Compatible(Known(x), Known(y))
    ensures result.Valid() && (ok ==> result.Contents() == Merged(Known(x), Known(y)))
    ensures OnlyOwn(old(result.heap.cells), {}, result.heap.cells, result.Owned())
  {
    hide IsKnown, DimsOf, Elements, Get16, Get32, Get64, Fits, IsSize, ValidDims, MergeFits, Compatible, Merged;
    OwnNothing(result.heap.cells, {});
    assert Zip(x, y)[..0] == [];
    hide Zip, OnlyOwn;
    var i := 0;
    while i < Rank(a.buf) as int
      invariant i <= |x| && a.Valid() && b.Valid() && a.Contents() == Known(x) && b.Contents() == Known(y)
      invariant forall j | 0 <= j < i :: Agree(x[j], y[j])
      invariant result.Valid() && result.HasSpace() && result.Contents() == Known(Zip(x, y)[..i])
      invariant result.Owned() !! a.Owned() && (result == b || result.Owned() !! b.Owned())
      invariant OnlyOwn(old(result.heap.cells), {}, result.heap.cells, result.Owned())
    {
      ghost var cells, owned := result.heap.cells, result.Owned();
      var agree := MergeDim(a, b, result, i, x, y);
      if !agree {
        Disagree(x, y, i);
        return false;
      }
      OwnOnly(old(result.heap.cells), {}, cells, owned, result.heap.cells, result.Owned());
      i := i + 1;
    }
    assert Zip(x, y)[..i] == Zip(x, y);
    AgreeAll(x, y);
    return true;
  }
}
