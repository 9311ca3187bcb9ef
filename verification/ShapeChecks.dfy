/** The four ways to ask whether dimensions make a shape: IsValid, IsValidShape, MakeShape and the CHECKs of the
    proto constructor. */
module ShapeChecks {
  import opened Memory
  import opened ShapeRep
  import opened ShapeSpec
  import opened TensorShape

  /** The error statuses, without their texts. */
  datatype Verdict = Ok | UnknownWithDims | NegativeCount | TooManyDimensions | SizeTooSmall | TooManyElements

  predicate ValidProto(partial: bool, proto: Proto) {
    if partial && proto.unknownRank then proto.dims == [] else ValidDims(partial, proto.dims)
  }

  method IsValid(partial: bool, proto: Proto) returns (valid: bool)
    requires forall i | 0 <= i < |proto.dims| :: IsInt64(proto.dims[i])
    ensures valid <==> ValidProto(partial, proto)
  {
    if partial && proto.unknownRank {
      return proto.dims == [];
    }
    var dims := proto.dims;
    var numElements := 1;
    if |dims| > MAX_DIMENSIONS {
      return false;
    }
    var i := 0;
    while i < |dims|
      invariant i <= |dims| && numElements == Elements(dims[..i]) && AreSizes(partial, dims[..i]) && Fits(dims[..i])
      invariant !partial ==> numElements >= 0
    {
      PrefixOk(partial, dims, i);
      var size := dims[i];
      if size < (if partial then -1 else 0) {
        return false;
      }
      if size == -1 {
        numElements := -1;
      } else if !partial || numElements >= 0 {
        numElements := MultiplyWithoutOverflow(numElements, size);
        if numElements < 0 {
          return false;
        }
      }
      i := i + 1;
    }
    assert dims[..i] == dims;
    return true;
  }

  /** Why dims are not the dimensions of a shape: the first size at which something is wrong decides. */
  ghost predicate FailsAt(partial: bool, dims: Dims, i: nat, v: Verdict) {
    && i < |dims| <= MAX_DIMENSIONS && AreSizes(partial, dims[..i]) && Fits(dims[..i])
    && if v.SizeTooSmall? then dims[i] < (if partial then -1 else 0)
       else v.TooManyElements? && IsSize(partial, dims[i]) && Elements(dims[..i + 1]) > MAX_INT64
  }

  method IsValidShape(partial: bool, proto: Proto) returns (v: Verdict)
    requires forall i | 0 <= i < |proto.dims| :: IsInt64(proto.dims[i])
    ensures v.Ok? <==> ValidProto(partial, proto)
    ensures v.UnknownWithDims? <==> partial && proto.unknownRank && proto.dims != []
    ensures !v.NegativeCount?
    ensures v.TooManyDimensions? <==> !(partial && proto.unknownRank) && |proto.dims| > MAX_DIMENSIONS
    ensures v.SizeTooSmall? || v.TooManyElements? ==> exists i :: FailsAt(partial, proto.dims, i, v)
  {
    if partial && proto.unknownRank {
      if |proto.dims| > 0 {
        return UnknownWithDims;
      }
      return Ok;
    }
    var dims := proto.dims;
    var numElements := 1;
    if |dims| > MAX_DIMENSIONS {
      return TooManyDimensions;
    }
    var i := 0;
    while i < |dims|
      invariant i <= |dims| && numElements == Elements(dims[..i]) && AreSizes(partial, dims[..i]) && Fits(dims[..i])
      invariant !partial ==> numElements >= 0
    {
      PrefixOk(partial, dims, i);
      var size := dims[i];
      if size < (if partial then -1 else 0) {
        assert FailsAt(partial, dims, i, SizeTooSmall);
        return SizeTooSmall;
      }
      if size == -1 {
        numElements := -1;
      } else if !partial || numElements >= 0 {
        numElements := MultiplyWithoutOverflow(numElements, size);
        if numElements < 0 {
          assert FailsAt(partial, dims, i, TooManyElements);
          return TooManyElements;
        }
      }
      i := i + 1;
    }
    assert dims[..i] == dims;
    return Ok;
  }

  /** MakeShapeHelper, for n dimensions; the shape is left cleared, or partly filled, when it fails. */
  method MakeShape(dims: Dims, n: int, out: Shape) returns (v: Verdict)
    requires (n >= 0 ==> |dims| == n) && forall i | 0 <= i < |dims| :: IsInt64(dims[i])
    requires out.Safe() && out.HasSpace()
    modifies out, out.heap
    ensures out.Valid() && out.Contents().Known? && out.Contents().dims <= dims
    ensures v.Ok? <==> n >= 0 && ValidDims(out.isPartial, dims)
    ensures v.NegativeCount? <==> n < 0
    ensures v.TooManyDimensions? <==> n > MAX_DIMENSIONS
    ensures v.SizeTooSmall? || v.TooManyElements? ==> exists i :: FailsAt(out.isPartial, dims, i, v)
    ensures !v.UnknownWithDims?
    ensures v.Ok? ==> out.Contents() == Known(dims)
    ensures OnlyOwn(old(out.heap.cells), old(out.Owned()), out.heap.cells, out.Owned())
  {
    hide MultiplyWithoutOverflow, Elements, IsKnown, DimsOf, Get16, Get32, Get64;
    out.Clear();
    hide OnlyOwn;
    assert dims[..0] == [];
    if n > MAX_DIMENSIONS {
      return TooManyDimensions;
    }
    if n < 0 {
      return NegativeCount;
    }
    var i := 0;
    while i < n
      invariant i <= |dims| && out.Valid() && out.HasSpace() && out.Contents() == Known(dims[..i])
      invariant OnlyOwn(old(out.heap.cells), old(out.Owned()), out.heap.cells, out.Owned())
    {
      PrefixOk(out.isPartial, dims, i);
      var dim := dims[i];
      var newNumElements: int;
      if dim < 0 {
        if !out.isPartial {
          assert FailsAt(out.isPartial, dims, i, SizeTooSmall);
          return SizeTooSmall;
        }
        if dim < -1 {
          assert FailsAt(out.isPartial, dims, i, SizeTooSmall);
          return SizeTooSmall;
        }
        dim := -1;
        newNumElements := -1;
      } else if out.numElements < 0 {
        newNumElements := -1;
      } else {
        newNumElements := MultiplyWithoutOverflow(out.numElements, dim);
        if newNumElements < 0 {
          assert FailsAt(out.isPartial, dims, i, TooManyElements);
          return TooManyElements;
        }
      }
      ghost var cells, owned := out.heap.cells, out.Owned();
      assert dims[..i + 1] == dims[..i] + [dim];
      out.UnsafeAddDim(dim, newNumElements);
      OwnOnly(old(out.heap.cells), old(out.Owned()), cells, owned, out.heap.cells, out.Owned());
      i := i + 1;
    }
    assert dims[..i] == dims;
    return Ok;
  }

  // ---------------------------------------------------------------- the CHECKs of the proto constructor

  /** For int64 sizes the constructor passes its CHECKs, and the sizes are at least -1, exactly when IsValid says
      so; for a TensorShape, passing the CHECKs alone is enough. */
  lemma ChecksAgree(partial: bool, dims: Dims)
    requires forall i | 0 <= i < |dims| :: IsInt64(dims[i])
    ensures ConstructorPasses(partial, dims) && (forall i | 0 <= i < |dims| :: dims[i] >= -1) <==> ValidDims(partial, dims)
    ensures !partial ==> (ConstructorPasses(partial, dims) <==> ValidDims(partial, dims))
  {
    if ConstructorPasses(partial, dims) {
      PassingFits(partial, dims);
      forall i | 0 <= i < |dims| ensures !partial ==> dims[i] >= 0 {
        assert PassesChecks(partial, i, Elements(dims[..i]), dims[i]);
      }
    }
    if ValidDims(partial, dims) {
      ValidPasses(partial, dims);
    }
  }

  /** The constructor of a PartialTensorShape accepts a size below -1, which IsValid refuses: the shape holds it as
      unknown, or, when it has a vector, as it is. */
  lemma ConstructorAcceptsTooSmall()
    ensures ConstructorPasses(true, [-5]) && !ValidDims(true, [-5]) && Held([-5]) == [-1]
    ensures var seven := seq(7, _ => -5);
      ConstructorPasses(true, seven) && !ValidDims(true, seven) && Held(seven) == seq(6, _ => -1) + [-5]
  {
    hide Elements, Fits, TagFor;
    assert !IsSize(true, [-5][0]);
    Inline([-5][..1]);
    var seven := seq(7, _ => -5);
    assert !IsSize(true, seven[0]);
    forall i | 0 <= i < 7 ensures Held(seven)[i] == if i < 6 then -1 else -5 {
      Inline(seven[..i + 1]);
    }
  }

  lemma Inline(sizes: Dims)
    requires forall i | 0 <= i < |sizes| :: sizes[i] < 0
    ensures TagFor(sizes) == if |sizes| <= 6 then REP16 else REP_OUT_OF_LINE
  {}

  /** Printing what was parsed gives the proto back, except when the constructor drops something: the flag
      "unknown rank" of a TensorShape's proto, or the dimensions next to that flag. */
  lemma PrintedParsed(partial: bool, proto: Proto)
    ensures Printed(Parsed(partial, proto)) == proto <==> (proto.unknownRank ==> partial && proto.dims == [])
  {}

  lemma ParsedPrinted(partial: bool, c: Contents)
    requires IsContents(partial, c)
    ensures ValidProto(partial, Printed(c)) && Parsed(partial, Printed(c)) == c
  {}
}
