/** TensorShape and PartialTensorShape: shapes stored in 16 bytes, with an owned out-of-line vector if need be. */
module TensorShape {
  import opened Basics
  import opened Memory
  import opened ShapeSpec
  import opened ShapeRep

  /** What a shape means: an unknown rank, or dimensions. */
  datatype Contents = UnknownRank | Known(dims: Dims)

  function NumElements(c: Contents): int {
    if c.UnknownRank? then -1 else Elements(c.dims)
  }

  predicate IsContents(partial: bool, c: Contents) {
    if c.UnknownRank? then partial else ValidDims(partial, c.dims)
  }

  function Appended(c: Contents, size: int): Contents {
    if c.UnknownRank? then c else Known(c.dims + [size])
  }

  /** TensorShapeProto. */
  datatype Proto = Proto(unknownRank: bool, dims: Dims)

  /** What the constructor makes of a proto, and what AsProto makes of a shape. */
  function Parsed(partial: bool, proto: Proto): Contents {
    if partial && proto.unknownRank then UnknownRank else Known(proto.dims)
  }

  function Printed(c: Contents): Proto {
    if c.UnknownRank? then Proto(true, []) else Proto(false, c.dims)
  }

  /** The bytes with tag REP16, data type DT_INVALID and rank 0; the constructors leave the other bytes
      undetermined, and they do not matter. */
  function Blank(): Buffer {
    seq(16, _ => 0)
  }

  class Shape {
    const isPartial: bool
    const heap: Heap<Dims>
    var buf: Buffer
    var numElements: int

    /** The out-of-line vector. */
    ghost function Vec(): Dims
      reads this, heap
    {
      if Tag(buf) == REP_OUT_OF_LINE && Address(buf) in heap.cells then heap.cells[Address(buf)] else []
    }

    /** The cells of the heap that this shape has to free. */
    ghost function Owned(): set<nat>
      reads this
    {
      if Tag(buf) == REP_OUT_OF_LINE then {Address(buf)} else {}
    }

    /** Enough to destroy the shape or assign to it; also true of a shape that was moved from. */
    ghost predicate Safe()
      reads this, heap
    {
      Owned() <= heap.cells.Keys && (Tag(buf) == REP_OUT_OF_LINE ==> Address(buf) != 0)
    }

    /** The dimensions can be read; numElements may be out of date. */
    ghost predicate Readable()
      reads this, heap
    {
      && Safe()
      && if Rank(buf) == UNKNOWN_RANK then isPartial && Tag(buf) == REP16 else IsKnown(isPartial, buf, Vec())
    }

    ghost function Contents(): Contents
      reads this, heap
      requires Readable()
    {
      if Rank(buf) == UNKNOWN_RANK then UnknownRank else Known(DimsOf(isPartial, buf, Vec()))
    }

    ghost predicate Valid()
      reads this, heap
    {
      Readable() && IsContents(isPartial, Contents()) && numElements == NumElements(Contents())
    }

    /** The dimensions can be read and their product is cached, but sizes of a partial shape may be below -1. */
    ghost predicate Counted()
      reads this, heap
    {
      && Readable() && numElements == NumElements(Contents())
      && (!isPartial ==> Contents().Known? && AreSizes(false, Contents().dims))
      && (Contents().Known? ==> |Contents().dims| <= MAX_DIMENSIONS && Fits(Contents().dims))
    }

    /** AddDim passes its CHECKs. */
    ghost predicate PassesAdd(size: int)
      reads this, heap
    {
      && Counted() && size <= MAX_INT64
      && (Contents().Known? ==> PassesChecks(isPartial, |Contents().dims|, numElements, size))
    }

    /** An allocation by this shape would succeed, or it needs none. */
    ghost predicate HasSpace()
      reads this, heap
    {
      Tag(buf) == REP_OUT_OF_LINE || heap.HasRoom()
    }

    /** The CHECKs of AddDim pass and the result is a valid shape. */
    ghost predicate CanAdd(size: int)
      reads this, heap
    {
      Valid() && IsSize(isPartial, size) && IsContents(isPartial, Appended(Contents(), size))
    }

    // ---------------------------------------------------------------- construction

    /** The default constructor: a scalar TensorShape, or a PartialTensorShape of unknown rank. */
    constructor (partial: bool, h: Heap<Dims>)
      ensures isPartial == partial && heap == h && fresh(this)
      ensures Valid() && Owned() == {} && DataType(buf) == 0
      ensures Contents() == if partial then UnknownRank else Known([])
    {
      isPartial := partial;
      heap := h;
      buf := Blank()[14 := if partial then UNKNOWN_RANK else 0];
      numElements := if partial then -1 else 1;
    }

    constructor FromDims(partial: bool, h: Heap<Dims>, sizes: Dims)
      requires ConstructorPasses(partial, sizes) && h.HasRoom()
      requires forall i | 0 <= i < |sizes| :: IsInt64(sizes[i])
      modifies h
      ensures isPartial == partial && heap == h && fresh(this)
      ensures Counted() && Contents() == Known(Held(sizes)) && DataType(buf) == 0
      ensures ValidDims(partial, sizes) ==> Valid() && Contents() == Known(sizes)
      ensures OnlyOwn(old(h.cells), {}, h.cells, Owned())
    {
      isPartial := partial;
      heap := h;
      buf := Blank();
      numElements := 0;
      new;
      InitDims(sizes);
    }

    /** Sizes below -1 pass the CHECKs of a partial shape; then Held says what the shape holds. */
    constructor FromProto(partial: bool, h: Heap<Dims>, proto: Proto)
      requires (partial && proto.unknownRank) || ConstructorPasses(partial, proto.dims)
      requires h.HasRoom() && forall i | 0 <= i < |proto.dims| :: IsInt64(proto.dims[i])
      modifies h
      ensures isPartial == partial && heap == h && fresh(this)
      ensures Counted() && DataType(buf) == 0
      ensures Contents() == if partial && proto.unknownRank then UnknownRank else Known(Held(proto.dims))
      ensures (partial && proto.unknownRank) || ValidDims(partial, proto.dims) ==> Valid() && Contents() == Parsed(partial, proto)
      ensures OnlyOwn(old(h.cells), {}, h.cells, Owned())
    {
      isPartial := partial;
      heap := h;
      var unknown := partial && proto.unknownRank;
      buf := Blank()[14 := if unknown then UNKNOWN_RANK else 0];
      numElements := if unknown then -1 else 1;
      new;
      if !unknown {
        AddEach(proto.dims);
      }
    }

    // ---------------------------------------------------------------- copying, moving, destroying

    constructor Copy(b: Shape)
      requires b.Valid() && (b.Owned() != {} ==> b.heap.HasRoom())
      modifies b.heap
      ensures isPartial == b.isPartial && heap == b.heap && fresh(this)
      ensures b.Valid() && b.Contents() == old(b.Contents())
      ensures Valid() && Contents() == b.Contents() && DataType(buf) == DataType(b.buf)
      ensures OnlyOwn(old(b.heap.cells), {}, heap.cells, Owned()) && Owned() !! b.Owned()
    {
      isPartial := b.isPartial;
      heap := b.heap;
      numElements := b.numElements;
      buf := if Tag(b.buf) != REP_OUT_OF_LINE then b.buf else Blank()[15 := REP16];
      new;
      if Tag(b.buf) == REP_OUT_OF_LINE {
        SlowCopyFrom(b);
      }
    }

    /** The moved-from shape keeps its rank byte and sizes' bytes, but owns nothing. */
    constructor Move(b: Shape)
      requires b.Valid()
      modifies b
      ensures isPartial == b.isPartial && heap == b.heap && fresh(this)
      ensures Valid() && Contents() == old(b.Contents()) && DataType(buf) == old(DataType(b.buf))
      ensures Owned() == old(b.Owned()) && b.Safe() && b.Owned() == {} && heap.cells == old(b.heap.cells)
    {
      isPartial := b.isPartial;
      heap := b.heap;
      numElements := b.numElements;
      buf := b.buf;
      new;
      b.buf := b.buf[15 := REP16];
    }

    method SlowCopyFrom(b: Shape)
      requires b.heap == heap && b.isPartial == isPartial && Safe() && b.Valid()
      requires this == b || Owned() !! b.Owned()
      requires b.Owned() != {} ==> HasSpace()
      modifies this`buf, heap
      ensures b.Readable() && b.Contents() == old(b.Contents())
      ensures Readable() && Contents() == b.Contents() && DataType(buf) == DataType(b.buf) == old(DataType(b.buf))
      ensures OnlyOwn(old(heap.cells), old(Owned()), heap.cells, Owned())
      ensures this == b || Owned() !! b.Owned()
    {
      if Tag(b.buf) != REP_OUT_OF_LINE {
        CopyBytes(b);
      } else {
        CopyVector(b);
      }
    }

    /** The other shape is inside its 16 bytes. */
    method CopyBytes(b: Shape)
      requires b.heap == heap && b.isPartial == isPartial && Safe() && b.Valid()
      requires this == b || Owned() !! b.Owned()
      requires Tag(b.buf) != REP_OUT_OF_LINE
      modifies this`buf, heap
      ensures b.Readable() && b.Contents() == old(b.Contents())
      ensures Readable() && Contents() == b.Contents() && DataType(buf) == DataType(b.buf) == old(DataType(b.buf))
      ensures OnlyOwn(old(heap.cells), old(Owned()), heap.cells, Owned())
      ensures this == b || Owned() !! b.Owned()
    {
      hide IsKnown, DimsOf, Elements, Fits, AreSizes;
      if Tag(buf) == REP_OUT_OF_LINE {
        heap.Delete(Address(buf));
      }
      buf := b.buf;
    }

    /** The other shape has a vector. */
    method CopyVector(b: Shape)
      requires b.heap == heap && b.isPartial == isPartial && Safe() && b.Valid()
      requires this == b || Owned() !! b.Owned()
      requires Tag(b.buf) == REP_OUT_OF_LINE && HasSpace()
      modifies this`buf, heap
      ensures b.Readable() && b.Contents() == old(b.Contents())
      ensures Readable() && Contents() == b.Contents() && DataType(buf) == DataType(b.buf) == old(DataType(b.buf))
      ensures OnlyOwn(old(heap.cells), old(Owned()), heap.cells, Owned())
      ensures this == b || Owned() !! b.Owned()
    {
      if Tag(buf) == REP_OUT_OF_LINE {
        CopyIntoVector(b);
      } else {
        CopyIntoNewVector(b);
      }
    }

    /** Rank and data type of the other shape. */
    method CopyHeader(b: Shape)
      modifies this`buf
      ensures buf == old(buf)[14 := old(Rank(b.buf))][13 := old(DataType(b.buf))] && Address(buf) == old(Address(buf))
    {
      ghost var mine := buf;
      buf := buf[14 := Rank(b.buf)];
      buf := buf[13 := DataType(b.buf)];
      FieldsKept(mine, buf, 13, 2, 0);
    }

    method CopyIntoVector(b: Shape)
      requires b.heap == heap && b.isPartial == isPartial && Safe() && b.Valid()
      requires this == b || Owned() !! b.Owned()
      requires Tag(b.buf) == REP_OUT_OF_LINE && Tag(buf) == REP_OUT_OF_LINE
      modifies this`buf, heap
      ensures b.Readable() && b.Contents() == old(b.Contents())
      ensures Readable() && Contents() == b.Contents() && DataType(buf) == DataType(b.buf) == old(DataType(b.buf))
      ensures OnlyOwn(old(heap.cells), old(Owned()), heap.cells, Owned())
      ensures this == b || Owned() !! b.Owned()
    {
      hide Elements, Fits, AreSizes, Get64;
      CopyHeader(b);
      heap.Write(Address(buf), heap.cells[Address(b.buf)]);
      assert b.Vec() == old(b.Vec()) == Vec();
    }

    method CopyIntoNewVector(b: Shape)
      requires b.heap == heap && b.isPartial == isPartial && Safe() && b.Valid()
      requires this == b || Owned() !! b.Owned()
      requires Tag(b.buf) == REP_OUT_OF_LINE && Tag(buf) != REP_OUT_OF_LINE && heap.HasRoom()
      modifies this`buf, heap
      ensures b.Readable() && b.Contents() == old(b.Contents())
      ensures Readable() && Contents() == b.Contents() && DataType(buf) == DataType(b.buf) == old(DataType(b.buf))
      ensures OnlyOwn(old(heap.cells), old(Owned()), heap.cells, Owned())
      ensures this == b || Owned() !! b.Owned()
    {
      hide Elements, Fits, AreSizes, Get64;
      CopyHeader(b);
      buf := buf[15 := REP_OUT_OF_LINE];
      var p := heap.New(heap.cells[Address(b.buf)]);
      buf := Put64(buf, 0, p);
      assert b.Vec() == old(b.Vec()) == Vec();
    }

    method Assign(b: Shape)
      requires b.heap == heap && b.isPartial == isPartial && Safe() && b.Valid()
      requires this == b || Owned() !! b.Owned()
      requires b.Owned() != {} ==> HasSpace()
      modifies this, heap
      ensures b.Valid() && b.Contents() == old(b.Contents())
      ensures Valid() && Contents() == b.Contents() && DataType(buf) == DataType(b.buf) == old(DataType(b.buf))
      ensures OnlyOwn(old(heap.cells), old(Owned()), heap.cells, Owned())
      ensures this == b || Owned() !! b.Owned()
    {
      numElements := b.numElements;
      if Tag(buf) != REP_OUT_OF_LINE && Tag(b.buf) != REP_OUT_OF_LINE {
        buf := b.buf;
      } else {
        SlowCopyFrom(b);
      }
    }

    /** A shape that is moved onto itself frees its vector once and is left moved-from; inside the 16 bytes it stays
        as it is unless the sizes have 32 bits. */
    method MoveAssign(b: Shape)
      requires b.heap == heap && b.isPartial == isPartial && Safe() && b.Valid()
      requires this == b || Owned() !! b.Owned()
      modifies this, b, heap
      ensures this != b ==> Valid() && Contents() == old(b.Contents()) && DataType(buf) == old(DataType(b.buf))
      ensures this != b ==> Owned() == old(b.Owned())
      ensures this == b && old(Tag(buf)) == REP16 ==> Valid() && Contents() == old(Contents()) && buf == old(buf)
      ensures b.Safe() && b.Owned() == {}
      ensures heap.cells == old(heap.cells) - old(Owned())
    {
      if Tag(buf) == REP_OUT_OF_LINE {
        heap.Delete(Address(buf));
      }
      numElements := b.numElements;
      buf := b.buf;
      b.buf := b.buf[15 := REP16];
      assert old(Tag(b.buf)) == REP16 ==> b.buf == old(b.buf);
    }

    /** The destructor. */
    method Destroy()
      requires Safe()
      modifies heap
      ensures heap.cells == old(heap.cells) - Owned()
    {
      if Tag(buf) == REP_OUT_OF_LINE {
        heap.Delete(Address(buf));
      }
    }

    // ---------------------------------------------------------------- reading

    predicate HasUnknownRank()
      reads this
    {
      isPartial && Rank(buf) == UNKNOWN_RANK
    }

    method DimSize(d: nat) returns (size: int)
      requires Readable() && (Contents().Known? ==> d < |Contents().dims|)
      ensures size == if Contents().UnknownRank? then -1 else Contents().dims[d]
    {
      if HasUnknownRank() {
        return -1;
      }
      if Tag(buf) == REP16 {
        var dim := Get16(buf, 2 * d);
        if isPartial && dim == UNKNOWN_REP16 {
          return -1;
        }
        return dim;
      } else if Tag(buf) == REP32 {
        var dim := Get32(buf, 4 * d);
        if isPartial && dim == UNKNOWN_REP32 {
          return -1;
        }
        return dim;
      } else {
        return heap.cells[Address(buf)][d];
      }
    }

    method IsFullyDefined() returns (full: bool)
      requires Valid()
      ensures full <==> Contents().Known? && forall i | 0 <= i < |Contents().dims| :: Contents().dims[i] >= 0
    {
      if Contents().Known? { ElementsIsProduct(Contents().dims); }
      return !isPartial || numElements != -1;
    }

    method AsProto() returns (proto: Proto)
      requires Valid()
      ensures proto == Printed(Contents())
    {
      if HasUnknownRank() {
        return Proto(true, []);
      }
      var vals := Sizes();
      return Proto(false, vals);
    }

    /** AppendTo, and the loop of dim_sizes. */
    method Sizes() returns (vals: Dims)
      requires Readable() && Contents().Known?
      ensures vals == Contents().dims
    {
      vals := [];
      var d := 0;
      while d < Rank(buf) as int
        invariant d <= |Contents().dims| && vals == Contents().dims[..d]
      {
        var size := DimSize(d);
        vals := vals + [size];
        d := d + 1;
      }
    }

    // ---------------------------------------------------------------- growing

    /** Stores the sizes in three 32-bit fields. */
    method Fill32(vals: Dims)
      requires |vals| <= 3 && forall i | 0 <= i < |vals| :: (isPartial || vals[i] >= 0) && vals[i] < MAX_REP32
      modifies this`buf
      ensures Tag(buf) == REP32 && OnlyAt(old(buf)[15 := REP32], buf, 0, 12)
      ensures forall i | 0 <= i < |vals| :: Get32(buf, 4 * i) == Stored(vals[i], UNKNOWN_REP32)
    {
      buf := buf[15 := REP32];
      var d := 0;
      while d < |vals|
        invariant d <= |vals| && Tag(buf) == REP32 && OnlyAt(old(buf)[15 := REP32], buf, 0, 12)
        invariant forall i | 0 <= i < d :: Get32(buf, 4 * i) == Stored(vals[i], UNKNOWN_REP32)
      {
        ghost var before := buf;
        buf := Put32(buf, 4 * d, Stored(vals[d], UNKNOWN_REP32));
        forall i | 0 <= i < d ensures Get32(buf, 4 * i) == Get32(before, 4 * i) {
          FieldsKept(before, buf, 4 * d, 4, 4 * i);
        }
        d := d + 1;
      }
    }

    /** The part of UnsafeAddDim that changes the representation. */
    method Upgrade(size: int)
      requires Readable() && Contents().Known? && Tag(buf) != REP_OUT_OF_LINE && HasSpace()
      requires |Contents().dims| < MAX_DIMENSIONS && (isPartial || size >= 0)
      modifies this`buf, heap
      ensures Readable() && HasSpace()
      ensures Contents() == Known(old(Contents().dims) + [Kept(size, Tag(buf))]) && DataType(buf) == old(DataType(buf))
      ensures Tag(buf) == WideTag(old(Contents().dims) + [size])
      ensures OnlyOwn(old(heap.cells), old(Owned()), heap.cells, Owned())
    {
      var nd := Rank(buf);
      hide Get16, Put16;
      var vals := Sizes();
      InlineSizes(isPartial, buf, Vec());
      vals := vals + [size];
      var canBeRep32 := |vals| <= 3;
      if canBeRep32 {
        var i := 0;
        while i < |vals|
          invariant i <= |vals| && canBeRep32 == forall j | 0 <= j < i :: vals[j] < MAX_REP32
        {
          if vals[i] >= MAX_REP32 {
            canBeRep32 := false;
            break;
          }
          i := i + 1;
        }
      }
      hide IsKnown, DimsOf;
      if canBeRep32 {
        FillInline(nd, vals);
      } else {
        FillVector(nd, vals);
      }
    }

    /** The sizes go into three 32-bit fields. */
    method FillInline(nd: nat, vals: Dims)
      requires |vals| == nd + 1 <= 3 && Tag(buf) != REP_OUT_OF_LINE && AreSizes(isPartial, vals[..nd])
      requires forall i | 0 <= i <= nd :: (isPartial || vals[i] >= 0) && vals[i] < MAX_REP32
      modifies this`buf
      ensures Readable() && Tag(buf) == REP32 && DataType(buf) == old(DataType(buf))
      ensures Contents() == Known(vals[..nd] + [Kept(vals[nd], REP32)])
    {
      Fill32(vals);
      ghost var filled, kept := buf, vals[..nd] + [Kept(vals[nd], REP32)];
      buf := buf[14 := nd + 1];
      forall i | 0 <= i < |vals|
        ensures Get32(buf, 4 * i) == Get32(filled, 4 * i) == Stored(kept[i], UNKNOWN_REP32)
        ensures IsSize(isPartial, kept[i])
      {
        FieldsKept(filled, buf, 14, 1, 4 * i);
        assert i < nd ==> IsSize(isPartial, vals[..nd][i]);
      }
      Filled32(isPartial, buf, Vec(), kept);
    }

    /** The sizes go into a new vector. */
    method FillVector(nd: byte, vals: Dims)
      requires |vals| == nd + 1 <= MAX_DIMENSIONS && Tag(buf) != REP_OUT_OF_LINE && heap.HasRoom()
      modifies this`buf, heap
      ensures Readable() && Tag(buf) == REP_OUT_OF_LINE && DataType(buf) == old(DataType(buf))
      ensures Contents() == Known(vals)
      ensures OnlyOwn(old(heap.cells), {}, heap.cells, Owned())
    {
      var p := heap.New(vals);
      ghost var pointed := Put64(buf[15 := REP_OUT_OF_LINE], 0, p);
      buf := Put64(buf[15 := REP_OUT_OF_LINE], 0, p)[14 := nd + 1];
      FieldsKept(pointed, buf, 14, 1, 0);
    }

    method UnsafeAddDim(size: int, newNumElements: int)
      requires Readable() && Contents().Known? && HasSpace()
      requires |Contents().dims| < MAX_DIMENSIONS && (isPartial || size >= 0)
      modifies this, heap
      ensures Readable() && HasSpace()
      ensures Contents() == Known(old(Contents().dims) + [Kept(size, Tag(buf))]) && DataType(buf) == old(DataType(buf))
      ensures Tag(buf) == old(NextTag(Tag(buf), Contents().dims, size))
      ensures numElements == newNumElements
      ensures OnlyOwn(old(heap.cells), old(Owned()), heap.cells, Owned())
    {
      hide WideTag, Get16, Get32, Put16, Put32;
      var nd := Rank(buf);
      if Tag(buf) == REP16 && nd < 6 && size < MAX_REP16 {
        Add16(isPartial, buf, Vec(), Kept(size, REP16));
        buf := Put16(buf, 2 * nd, Stored(size, UNKNOWN_REP16))[14 := nd + 1];
      } else if Tag(buf) == REP32 && nd < 3 && size < MAX_REP32 {
        Add32(isPartial, buf, Vec(), Kept(size, REP32));
        buf := Put32(buf, 4 * nd, Stored(size, UNKNOWN_REP32))[14 := nd + 1];
      } else if Tag(buf) == REP_OUT_OF_LINE {
        var p := Address(buf);
        heap.Write(p, heap.cells[p] + [size]);
        ghost var before := buf;
        buf := buf[14 := nd + 1];
        FieldsKept(before, buf, 14, 1, 0);
      } else {
        Upgrade(size);
      }
      numElements := newNumElements;
    }

    /** AddDim, for any size that passes its CHECKs. */
    method AddChecked(size: int)
      requires PassesAdd(size) && HasSpace()
      modifies this, heap
      ensures Counted() && HasSpace() && DataType(buf) == old(DataType(buf))
      ensures old(Contents()).UnknownRank? ==> Contents().UnknownRank?
      ensures old(Contents()).Known? ==> Contents() == Known(old(Contents()).dims + [Kept(size, Tag(buf))])
      ensures old(Contents()).Known? ==> Tag(buf) == NextTag(old(Tag(buf)), old(Contents()).dims, size)
      ensures OnlyOwn(old(heap.cells), old(Owned()), heap.cells, Owned())
    {
      hide NextTag, IsKnown, DimsOf, Get16, Get32, Get64;
      if HasUnknownRank() {
        return;
      }
      ghost var dims := Contents().dims;
      if !isPartial { ElementsIsProduct(dims); }
      var newNumElements: int;
      if isPartial && (numElements < 0 || size < 0) {
        newNumElements := -1;
      } else {
        newNumElements := MultiplyWithoutOverflow(numElements, size);
      }
      UnsafeAddDim(size, newNumElements);
      CountedNext(isPartial, dims, size, Kept(size, Tag(buf)));
    }

    /** AddDim, for a size that leaves the shape valid. */
    method AddDim(size: int)
      requires CanAdd(size) && HasSpace()
      modifies this, heap
      ensures Valid() && HasSpace() && Contents() == Appended(old(Contents()), size)
      ensures DataType(buf) == old(DataType(buf))
      ensures OnlyOwn(old(heap.cells), old(Owned()), heap.cells, Owned())
    {
      hide NextTag, IsKnown, DimsOf, Get16, Get32, Get64;
      if Contents().Known? {
        SizeThatFits(isPartial, Contents().dims, size);
      }
      AddChecked(size);
    }

    /** A loop that adds the sizes one by one. */
    method AddDims(vals: Dims)
      requires Valid() && Contents().Known? && HasSpace() && ValidDims(isPartial, Contents().dims + vals)
      modifies this, heap
      ensures Valid() && HasSpace() && Contents() == Known(old(Contents().dims) + vals)
      ensures DataType(buf) == old(DataType(buf))
      ensures OnlyOwn(old(heap.cells), old(Owned()), heap.cells, Owned())
    {
      hide IsKnown, DimsOf, AreSizes, Fits, Elements, IsSize, OnlyOwn;
      ghost var dims := Contents().dims;
      assert dims + vals[..0] == dims;
      OwnNothing(heap.cells, Owned());
      var i := 0;
      while i < |vals|
        invariant i <= |vals| && Valid() && HasSpace() && Contents() == Known(dims + vals[..i])
        invariant DataType(buf) == old(DataType(buf))
        invariant OnlyOwn(old(heap.cells), old(Owned()), heap.cells, Owned())
      {
        ghost var cells, owned := heap.cells, Owned();
        PrefixIsValid(isPartial, dims, vals, i);
        AddDim(vals[i]);
        assert vals[..i + 1] == vals[..i] + [vals[i]];
        assert dims + vals[..i + 1] == (dims + vals[..i]) + [vals[i]];
        OwnOnly(old(heap.cells), old(Owned()), cells, owned, heap.cells, Owned());
        i := i + 1;
      }
      assert vals[..|vals|] == vals;
    }

    /** The loop of the constructors: sizes that pass the CHECKs are added to a scalar one by one. */
    method AddEach(vals: Dims)
      requires Rank(buf) == 0 && Tag(buf) == REP16 && numElements == 1 && HasSpace()
      requires ConstructorPasses(isPartial, vals) && forall i | 0 <= i < |vals| :: IsInt64(vals[i])
      modifies this, heap
      ensures Counted() && HasSpace() && Contents() == Known(Held(vals)) && DataType(buf) == old(DataType(buf))
      ensures ValidDims(isPartial, vals) ==> Valid() && Contents() == Known(vals)
      ensures OnlyOwn(old(heap.cells), old(Owned()), heap.cells, Owned())
    {
      assert Contents() == Known(Held(vals[..0]));
      hide IsKnown, DimsOf, AreSizes, Fits, Elements, IsSize, OnlyOwn, Held, TagFor, NextTag, Kept, PassesChecks;
      OwnNothing(heap.cells, Owned());
      var i := 0;
      while i < |vals|
        invariant i <= |vals| && Counted() && HasSpace() && Contents() == Known(Held(vals[..i]))
        invariant Tag(buf) == TagFor(Held(vals[..i])) && DataType(buf) == old(DataType(buf))
        invariant OnlyOwn(old(heap.cells), old(Owned()), heap.cells, Owned())
      {
        ghost var cells, owned := heap.cells, Owned();
        HeldElements(vals[..i]);
        HeldNext(vals, i);
        TagAfterNext(Held(vals[..i]), vals[i]);
        HeldTag(vals, i + 1);
        AddChecked(vals[i]);
        OwnOnly(old(heap.cells), old(Owned()), cells, owned, heap.cells, Owned());
        i := i + 1;
      }
      assert vals[..|vals|] == vals;
      if ValidDims(isPartial, vals) { HeldSizes(isPartial, vals); }
    }

    /** Stores one 16-bit size without upgrading; true iff the size is unknown. */
    method StoreSmall(dim: nat, val: int) returns (neg: bool)
      requires dim < 6 && val < MAX_REP16 && (isPartial || val >= 0)
      modifies this`buf
      ensures neg <==> val < 0
      ensures Get16(buf, 2 * dim) == Stored(val, UNKNOWN_REP16)
      ensures forall d | 0 <= d < 6 && d != dim :: Get16(buf, 2 * d) == Get16(old(buf), 2 * d)
      ensures DataType(buf) == old(DataType(buf)) && Rank(buf) == old(Rank(buf)) && Tag(buf) == old(Tag(buf))
    {
      if isPartial {
        if val < 0 {
          buf := Put16(buf, 2 * dim, UNKNOWN_REP16);
          return true;
        }
      }
      buf := Put16(buf, 2 * dim, val);
      return false;
    }

    /** The fast paths of InitDims. */
    method InitSmall(sizes: Dims)
      requires 1 <= |sizes| <= 4 && Tag(buf) == REP16
      requires forall i | 0 <= i < |sizes| :: (isPartial || sizes[i] >= 0) && sizes[i] <= MAX_SMALL
      modifies this
      ensures Counted() && Contents() == Known(Held(sizes)) && DataType(buf) == old(DataType(buf)) && Tag(buf) == REP16
    {
      hide Get16, Elements, Fits, TagFor, Held;
      SmallHeld(isPartial, sizes);
      Elements4(sizes);
      buf := buf[14 := |sizes|];
      var neg := StoreSmall(0, sizes[0]);
      if |sizes| == 1 {
        numElements := if neg then -1 else sizes[0];
      } else {
        var neg1 := StoreSmall(1, sizes[1]);
        neg := neg || neg1;
        if |sizes| == 2 {
          numElements := if neg then -1 else sizes[0] * sizes[1];
        } else {
          var neg2 := StoreSmall(2, sizes[2]);
          neg := neg || neg2;
          if |sizes| == 3 {
            numElements := if neg then -1 else sizes[0] * sizes[1] * sizes[2];
          } else {
            var neg3 := StoreSmall(3, sizes[3]);
            neg := neg || neg3;
            numElements := if neg then -1 else sizes[0] * sizes[1] * sizes[2] * sizes[3];
          }
        }
      }
      Filled16(isPartial, buf, Vec(), Held(sizes));
    }

    method InitDims(sizes: Dims)
      requires Tag(buf) == REP16 && ConstructorPasses(isPartial, sizes) && heap.HasRoom()
      requires forall i | 0 <= i < |sizes| :: IsInt64(sizes[i])
      modifies this, heap
      ensures Counted() && HasSpace() && Contents() == Known(Held(sizes)) && DataType(buf) == old(DataType(buf))
      ensures ValidDims(isPartial, sizes) ==> Valid() && Contents() == Known(sizes)
      ensures OnlyOwn(old(heap.cells), {}, heap.cells, Owned())
    {
      var largeSize := false;
      var i := 0;
      while i < |sizes|
        invariant i <= |sizes| && largeSize == exists j :: 0 <= j < i && sizes[j] > MAX_SMALL
      {
        if sizes[i] > MAX_SMALL {
          largeSize := true;
          break;
        }
        i := i + 1;
      }
      hide Held, TagFor, IsKnown, DimsOf, Elements, Fits;
      if !largeSize && 1 <= |sizes| <= 4 {
        NonNegative(isPartial, sizes);
        InitSmall(sizes);
        if ValidDims(isPartial, sizes) { HeldSizes(isPartial, sizes); }
      } else {
        buf := buf[14 := 0];
        numElements := 1;
        AddEach(sizes);
      }
    }

    /** The loop reads the rank of the other shape once; a shape appended to itself is doubled. */
    method AppendShape(shape: Shape)
      requires Valid() && HasSpace() && shape.heap == heap && shape.Valid() && shape.Contents().Known?
      requires shape == this || Owned() !! shape.Owned()
      requires shape.isPartial == isPartial
      requires Contents().Known? ==> ValidDims(isPartial, Contents().dims + shape.Contents().dims)
      modifies this, heap
      ensures Valid() && HasSpace() && DataType(buf) == old(DataType(buf))
      ensures Contents() == if old(Contents()).UnknownRank? then UnknownRank
                            else Known(old(Contents()).dims + old(shape.Contents()).dims)
      ensures OnlyOwn(old(heap.cells), old(Owned()), heap.cells, Owned())
    {
      hide IsKnown, DimsOf, AreSizes, Fits, Elements, IsSize, OnlyOwn;
      ghost var c, vals := Contents(), shape.Contents().dims;
      assert c.Known? ==> c.dims + vals[..0] == c.dims;
      OwnNothing(heap.cells, Owned());
      var end, d := Rank(shape.buf) as int, 0;
      while d < end
        invariant d <= end == |vals| && Valid() && HasSpace() && DataType(buf) == old(DataType(buf))
        invariant Contents() == if c.UnknownRank? then c else Known(c.dims + vals[..d])
        invariant shape != this ==> shape.Valid() && shape.Contents() == Known(vals) && Owned() !! shape.Owned()
        invariant OnlyOwn(old(heap.cells), old(Owned()), heap.cells, Owned())
      {
        ghost var cells, owned := heap.cells, Owned();
        var size := shape.DimSize(d);
        assert size == vals[d];
        NextIsValid(isPartial, c, vals, d);
        AddBeside(shape, size);
        OwnOnly(old(heap.cells), old(Owned()), cells, owned, heap.cells, Owned());
        d := d + 1;
      }
      assert vals[..d] == vals;
    }

    /** AddDim does not disturb another shape. */
    method AddBeside(other: Shape, size: int)
      requires CanAdd(size) && HasSpace()
      requires other == this || (other.heap == heap && other.Valid() && Owned() !! other.Owned())
      modifies this, heap
      ensures Valid() && HasSpace() && Contents() == Appended(old(Contents()), size) && DataType(buf) == old(DataType(buf))
      ensures other != this ==> other.Valid() && other.Contents() == old(other.Contents()) && Owned() !! other.Owned()
      ensures OnlyOwn(old(heap.cells), old(Owned()), heap.cells, Owned())
    {
      hide IsKnown, DimsOf, Get16, Get32, Fits, Elements, AreSizes;
      AddDim(size);
    }

    // ---------------------------------------------------------------- editing

    method ClearAllButDataType()
      requires Safe()
      modifies this, heap
      ensures Valid() && Contents() == Known([]) && DataType(buf) == old(DataType(buf)) && Owned() == {}
      ensures OnlyOwn(old(heap.cells), old(Owned()), heap.cells, {})
      ensures old(HasSpace()) ==> HasSpace()
    {
      if Tag(buf) == REP_OUT_OF_LINE {
        heap.Delete(Address(buf));
        assert 0 < old(Address(buf)) < TWO_64 && old(Address(buf)) !in heap.cells;
      }
      buf := buf[15 := REP16];
      buf := buf[14 := 0];
      numElements := 1;
      assert Contents() == Known([]);
    }

    method Clear()
      requires Safe()
      modifies this, heap
      ensures Valid() && Contents() == Known([]) && DataType(buf) == 0 && Owned() == {}
      ensures OnlyOwn(old(heap.cells), old(Owned()), heap.cells, {})
      ensures old(HasSpace()) ==> HasSpace()
    {
      ClearAllButDataType();
      buf := buf[13 := 0];
      assert Contents() == Known([]);
    }

    /** Clearing, then adding the sizes one by one. */
    method Rebuild(vals: Dims)
      requires Safe() && HasSpace() && ValidDims(isPartial, vals)
      modifies this, heap
      ensures Valid() && HasSpace() && Contents() == Known(vals) && DataType(buf) == old(DataType(buf))
      ensures OnlyOwn(old(heap.cells), old(Owned()), heap.cells, Owned())
    {
      ClearAllButDataType();
      assert [] + vals == vals;
      ghost var cells := heap.cells;
      AddDims(vals);
      OwnOnly(old(heap.cells), old(Owned()), cells, {}, heap.cells, Owned());
    }

    method InsertDim(d: nat, size: int)
      requires Valid() && HasSpace() && Contents().Known? && d <= |Contents().dims|
      requires ValidDims(isPartial, Contents().dims[..d] + [size] + Contents().dims[d..])
      modifies this, heap
      ensures Valid() && HasSpace()
      ensures Contents() == Known(old(Contents().dims)[..d] + [size] + old(Contents().dims)[d..])
      ensures DataType(buf) == old(DataType(buf))
      ensures OnlyOwn(old(heap.cells), old(Owned()), heap.cells, Owned())
    {
      var vals := Sizes();
      vals := vals[..d] + [size] + vals[d..];
      Rebuild(vals);
    }

    method RecomputeNumElements()
      requires Readable() && IsContents(isPartial, Contents())
      modifies this`numElements
      ensures Valid()
    {
      assert Elements([]) == 1;
      hide IsKnown, DimsOf, Elements, Fits, AreSizes, MultiplyWithoutOverflow, Get16, Get32, Get64;
      if HasUnknownRank() {
        numElements := -1;
        return;
      }
      ghost var dims := Contents().dims;
      assert dims[..0] == [];
      var n, d := 1, 0;
      while d < Rank(buf) as int
        invariant d <= |dims| && n == Elements(dims[..d]) >= 0
      {
        var size := DimSize(d);
        NextPrefix(isPartial, dims, d);
        if isPartial && size < 0 {
          n := -1;
          break;
        }
        n := MultiplyWithoutOverflow(n, size);
        d := d + 1;
      }
      assert d == |dims| ==> dims[..d] == dims;
      numElements := n;
    }

    method SetDim(d: nat, size: int)
      requires Valid() && HasSpace() && Contents().Known? && d < |Contents().dims| && size >= 0
      requires ValidDims(isPartial, Contents().dims[d := size])
      modifies this, heap
      ensures Valid() && HasSpace() && Contents() == Known(old(Contents().dims)[d := size])
      ensures DataType(buf) == old(DataType(buf))
      ensures OnlyOwn(old(heap.cells), old(Owned()), heap.cells, Owned())
    {
      if Tag(buf) == REP16 && size < MAX_REP16 {
        Set16(isPartial, buf, Vec(), d, size);
        buf := Put16(buf, 2 * d, size);
      } else if Tag(buf) == REP32 && size < MAX_REP32 {
        Set32(isPartial, buf, Vec(), d, size);
        buf := Put32(buf, 4 * d, size);
      } else if Tag(buf) == REP_OUT_OF_LINE {
        heap.Write(Address(buf), heap.cells[Address(buf)][d := size]);
      } else {
        var vals := Sizes();
        vals := vals[d := size];
        Rebuild(vals);
      }
      RecomputeNumElements();
    }

    method RemoveDimRange(begin: int, end: int)
      requires Valid() && HasSpace()
      requires Contents().Known? ==>
        var rank := |Contents().dims|;
        var b, e := FromEnd(begin, rank), FromEnd(end, rank);
        0 <= b <= rank && 0 <= e <= rank && (b < e ==> ValidDims(isPartial, Contents().dims[..b] + Contents().dims[e..]))
      modifies this, heap
      ensures Valid() && HasSpace() && DataType(buf) == old(DataType(buf))
      ensures Contents() ==
        if old(Contents()).UnknownRank? then UnknownRank else Known(Removed(old(Contents()).dims, begin, end))
      ensures OnlyOwn(old(heap.cells), old(Owned()), heap.cells, Owned())
    {
      hide IsKnown, DimsOf, Elements, Fits, AreSizes, OnlyOwn;
      OwnNothing(heap.cells, Owned());
      if HasUnknownRank() {
        return;
      }
      var rank := Rank(buf) as int;
      var b, e := if begin < 0 then rank + begin + 1 else begin, if end < 0 then rank + end + 1 else end;
      if b >= e {
        return;
      }
      var vals := Sizes();
      vals := vals[..b] + vals[e..];
      Rebuild(vals);
      RecomputeNumElements();
    }
  }

  /** A position that, when negative, counts from the end as in Python. */
  function FromEnd(position: int, rank: nat): int {
    if position < 0 then rank + position + 1 else position
  }

  function Removed(dims: Dims, begin: int, end: int): Dims
    requires 0 <= FromEnd(begin, |dims|) <= |dims| && 0 <= FromEnd(end, |dims|) <= |dims|
  {
    var b, e := FromEnd(begin, |dims|), FromEnd(end, |dims|);
    if b >= e then dims else dims[..b] + dims[e..]
  }

  /** What RemoveDimRange keeps: exactly the dimensions b to e are missing, and the others keep their order. */
  lemma RemovedRange(dims: Dims, begin: int, end: int)
    requires begin < 0 ==> 0 <= |dims| + begin + 1
    requires end < 0 ==> 0 <= |dims| + end + 1
    requires begin <= |dims| && end <= |dims|
    ensures var b := if begin < 0 then |dims| + begin + 1 else begin;
            var e := if end < 0 then |dims| + end + 1 else end;
            && FromEnd(begin, |dims|) == b && FromEnd(end, |dims|) == e
            && var r := Removed(dims, begin, end);
               if b >= e then r == dims
               else
                 && |r| == |dims| - (e - b)
                 && (forall k | 0 <= k < b :: r[k] == dims[k])
                 && (forall k | b <= k < |r| :: r[k] == dims[k + (e - b)])
  {}

  /** Removing what was inserted gives the dimensions back. */
  lemma InsertedThenRemoved(dims: Dims, d: nat, size: int)
    requires d <= |dims|
    ensures Removed(dims[..d] + [size] + dims[d..], d, d + 1) == dims
  {}

  /** As in Python the range from 0 to -1 is that of all dimensions. */
  lemma AllRemoved(dims: Dims)
    ensures Removed(dims, 0, -1) == []
  {}

  /** The last n dimensions, counted from either end. */
  lemma LastRemoved(dims: Dims, n: nat)
    requires n <= |dims|
    ensures Removed(dims, |dims| - n, |dims|) == dims[..|dims| - n] == Removed(dims, -1 - n, -1)
  {}

  /** Sizes inside the 16 bytes are at least -1. */
  lemma InlineSizes(partial: bool, buf: Buffer, vec: Dims)
    requires IsKnown(partial, buf, vec) && Tag(buf) != REP_OUT_OF_LINE
    ensures forall d | 0 <= d < Rank(buf) :: IsSize(partial, DimsOf(partial, buf, vec)[d])
  {}

  lemma CountedNext(partial: bool, dims: Dims, size: int, kept: int)
    requires Fits(dims) && PassesChecks(partial, |dims|, Elements(dims), size) && size <= MAX_INT64
    requires !partial ==> AreSizes(false, dims)
    requires kept == size || (size < 0 && kept < 0)
    ensures Fits(dims + [kept]) && (!partial ==> AreSizes(false, dims + [kept]))
    ensures Elements(dims + [kept]) == if Elements(dims) < 0 || size < 0 then -1 else Elements(dims) * size
  {
    ElementsSnoc(dims, kept);
  }

  lemma SizeThatFits(partial: bool, dims: Dims, size: int)
    requires ValidDims(partial, dims + [size])
    ensures PassesChecks(partial, |dims|, Elements(dims), size) && IsSize(partial, size)
  {
    ElementsSnoc(dims, size);
    assert (dims + [size])[|dims|] == size;
    assert !partial ==> Elements(dims) >= 0 by {
      ElementsIsProduct(dims);
      assert forall i | 0 <= i < |dims| :: dims[i] == (dims + [size])[i];
    }
  }

  lemma NonNegative(partial: bool, sizes: Dims)
    requires ConstructorPasses(partial, sizes)
    ensures forall i | 0 <= i < |sizes| :: partial || sizes[i] >= 0
  {
    forall i | 0 <= i < |sizes| ensures partial || sizes[i] >= 0 {
      assert PassesChecks(partial, i, Elements(sizes[..i]), sizes[i]);
    }
  }

  /** Up to four small sizes are held in 16 bits each. */
  lemma SmallHeld(partial: bool, sizes: Dims)
    requires |sizes| <= 4 && forall i | 0 <= i < |sizes| :: (partial || sizes[i] >= 0) && sizes[i] <= MAX_SMALL
    ensures |Held(sizes)| == |sizes|
    ensures forall i | 0 <= i < |sizes| :: Held(sizes)[i] == (if sizes[i] < 0 then -1 else sizes[i])
    ensures Elements(Held(sizes)) == Elements(sizes) && Fits(Held(sizes))
    ensures AreSizes(partial, Held(sizes))
  {
    forall i | 0 <= i < |sizes| ensures Held(sizes)[i] == (if sizes[i] < 0 then -1 else sizes[i]) {
      assert TagFor(sizes[..i + 1]) == REP16;
    }
    HeldElements(sizes);
    SmallFits(Held(sizes));
  }

  lemma NextPrefix(partial: bool, dims: Dims, d: nat)
    requires ValidDims(partial, dims) && d < |dims| && Elements(dims[..d]) >= 0
    ensures dims[d] < 0 ==> partial && Elements(dims) == -1
    ensures Elements(dims[..d]) <= MAX_INT64 && dims[d] <= MAX_INT64
    ensures dims[d] >= 0 ==> 0 <= Elements(dims[..d + 1]) == Elements(dims[..d]) * dims[d] <= MAX_INT64
  {
    assert dims[..d + 1] == dims[..d] + [dims[d]];
    assert IsSize(partial, dims[d]);
    ElementsSnoc(dims[..d], dims[d]);
    FitsPrefix(dims, d);
    FitsPrefix(dims, d + 1);
    ElementsIsProduct(dims);
    if dims[d] >= 0 { TimesNonNegative(Elements(dims[..d]), dims[d]); }
  }

  lemma PrefixIsValid(partial: bool, dims: Dims, vals: Dims, i: nat)
    requires ValidDims(partial, dims + vals) && i < |vals|
    ensures ValidDims(partial, (dims + vals[..i]) + [vals[i]]) && IsSize(partial, vals[i])
  {
    var all, n := dims + vals, |dims| + i + 1;
    assert all[..n] == (dims + vals[..i]) + [vals[i]];
    FitsPrefix(all, n);
    assert all[|dims| + i] == vals[i];
  }

  lemma NextIsValid(partial: bool, c: Contents, vals: Dims, i: nat)
    requires i < |vals| && AreSizes(partial, vals)
    requires if c.UnknownRank? then partial else ValidDims(partial, c.dims + vals)
    ensures IsSize(partial, vals[i])
    ensures var front := if c.UnknownRank? then c else Known(c.dims + vals[..i]);
      IsContents(partial, Appended(front, vals[i]))
      && Appended(front, vals[i]) == if c.UnknownRank? then c else Known(c.dims + vals[..i + 1])
  {
    if c.Known? {
      PrefixIsValid(partial, c.dims, vals, i);
      assert c.dims + vals[..i + 1] == (c.dims + vals[..i]) + [vals[i]];
    }
  }

  lemma Elements4(s: Dims)
    requires 1 <= |s| <= 4
    ensures Elements(s) ==
      if exists i :: 0 <= i < |s| && s[i] < 0 then -1
      else if |s| == 1 then s[0]
      else if |s| == 2 then s[0] * s[1]
      else if |s| == 3 then s[0] * s[1] * s[2]
      else s[0] * s[1] * s[2] * s[3]
  {
    ElementsIsProduct(s);
    assert Product([]) == 1;
    assert Product(s[..1]) == s[0] by { assert s[..1][..0] == []; }
    if |s| >= 2 {
      assert Product(s[..2]) == s[0] * s[1] by { assert s[..2][..1] == s[..1]; }
    }
    if |s| >= 3 {
      assert Product(s[..3]) == s[0] * s[1] * s[2] by { assert s[..3][..2] == s[..2]; }
    }
    if |s| >= 4 {
      assert Product(s[..4]) == s[0] * s[1] * s[2] * s[3] by { assert s[..4][..3] == s[..3]; }
    }
    assert s[..|s|] == s;
  }
}
