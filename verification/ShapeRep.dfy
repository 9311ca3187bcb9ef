/** The 16-byte tagged representation of tensor_shape.h, as values: bytes 0 to 12 hold up to six 16-bit sizes,
    up to three 32-bit sizes, or the address of an out-of-line vector; then data type, rank and tag. */
module ShapeRep {
  import opened Memory
  import opened ShapeSpec

  const REP16: byte := 0
  const REP32: byte := 1
  const REP_OUT_OF_LINE: byte := 2

  const MAX_REP16: nat := 0xFFFE
  const UNKNOWN_REP16: nat := 0xFFFF
  const MAX_REP32: nat := 0xFFFF_FFFE
  const UNKNOWN_REP32: nat := 0xFFFF_FFFF
  const UNKNOWN_RANK: byte := 255

  type Buffer = b: seq<byte> | |b| == 16 witness seq(16, _ => 0)

  function DataType(buf: Buffer): byte { buf[13] }

  function Rank(buf: Buffer): byte { buf[14] }

  function Tag(buf: Buffer): byte { buf[15] }

  /** as64()->dims_ */
  function Address(buf: Buffer): nat { Get64(buf, 0) }

  /** The number stored for a size, given the number that stands for "unknown". */
  function Stored(size: int, unknown: nat): nat {
    if size < 0 then unknown else size
  }

  function Loaded(partial: bool, stored: nat, unknown: nat): int {
    if partial && stored == unknown then -1 else stored
  }

  predicate IsStored(partial: bool, stored: nat, max: nat, unknown: nat) {
    stored < max || (partial && stored == unknown)
  }

  /** The bytes, with the vector they point to, represent dimensions of known rank. */
  predicate IsKnown(partial: bool, buf: Buffer, vec: Dims) {
    && Rank(buf) != UNKNOWN_RANK
    && (Tag(buf) == REP16 ==>
          Rank(buf) <= 6 && forall d | 0 <= d < Rank(buf) :: IsStored(partial, Get16(buf, 2 * d), MAX_REP16, UNKNOWN_REP16))
    && (Tag(buf) == REP32 ==>
          Rank(buf) <= 3 && forall d | 0 <= d < Rank(buf) :: IsStored(partial, Get32(buf, 4 * d), MAX_REP32, UNKNOWN_REP32))
    && (Tag(buf) == REP_OUT_OF_LINE ==> Rank(buf) == |vec| && Address(buf) != 0)
    && Tag(buf) <= REP_OUT_OF_LINE
  }

  function DimSize(partial: bool, buf: Buffer, vec: Dims, d: nat): int
    requires IsKnown(partial, buf, vec) && d < Rank(buf)
  {
    if Tag(buf) == REP16 then Loaded(partial, Get16(buf, 2 * d), UNKNOWN_REP16)
    else if Tag(buf) == REP32 then Loaded(partial, Get32(buf, 4 * d), UNKNOWN_REP32)
    else vec[d]
  }

  function DimsOf(partial: bool, buf: Buffer, vec: Dims): (dims: Dims)
    requires IsKnown(partial, buf, vec)
    ensures |dims| == Rank(buf)
    ensures Tag(buf) == REP_OUT_OF_LINE ==> dims == vec
  {
    seq(Rank(buf), d requires 0 <= d < Rank(buf) => DimSize(partial, buf, vec, d))
  }

  /** The bytes of a TensorShape mean the same when they are read as a PartialTensorShape. */
  lemma ReadAsPartial(buf: Buffer, vec: Dims)
    requires IsKnown(false, buf, vec)
    ensures IsKnown(true, buf, vec) && DimsOf(true, buf, vec) == DimsOf(false, buf, vec)
  {}

  /** The bytes of a PartialTensorShape without unknown sizes mean the same when read as a TensorShape. */
  lemma ReadAsFull(buf: Buffer, vec: Dims)
    requires IsKnown(true, buf, vec) && forall d | d in DimsOf(true, buf, vec) :: d >= 0
    ensures IsKnown(false, buf, vec) && DimsOf(false, buf, vec) == DimsOf(true, buf, vec)
  {
    forall d | 0 <= d < Rank(buf)
      ensures DimSize(true, buf, vec, d) >= 0
      ensures Tag(buf) == REP16 ==> IsStored(false, Get16(buf, 2 * d), MAX_REP16, UNKNOWN_REP16)
      ensures Tag(buf) == REP32 ==> IsStored(false, Get32(buf, 4 * d), MAX_REP32, UNKNOWN_REP32)
    {
      assert DimsOf(true, buf, vec)[d] in DimsOf(true, buf, vec);
    }
  }

  // ---------------------------------------------------------------- one more dimension

  lemma Add16(partial: bool, buf: Buffer, vec: Dims, size: int)
    requires IsKnown(partial, buf, vec) && Tag(buf) == REP16 && Rank(buf) < 6 && IsSize(partial, size) && size < MAX_REP16
    ensures var r := Put16(buf, 2 * Rank(buf), Stored(size, UNKNOWN_REP16))[14 := Rank(buf) + 1];
      IsKnown(partial, r, vec) && DimsOf(partial, r, vec) == DimsOf(partial, buf, vec) + [size]
      && DataType(r) == DataType(buf) && Tag(r) == Tag(buf)
  {
    var r := Put16(buf, 2 * Rank(buf), Stored(size, UNKNOWN_REP16))[14 := Rank(buf) + 1];
    assert forall d | 0 <= d < Rank(buf) :: Get16(r, 2 * d) == Get16(buf, 2 * d);
    assert Get16(r, 2 * Rank(buf)) == Stored(size, UNKNOWN_REP16);
  }

  lemma Add32(partial: bool, buf: Buffer, vec: Dims, size: int)
    requires IsKnown(partial, buf, vec) && Tag(buf) == REP32 && Rank(buf) < 3 && IsSize(partial, size) && size < MAX_REP32
    ensures var r := Put32(buf, 4 * Rank(buf), Stored(size, UNKNOWN_REP32))[14 := Rank(buf) + 1];
      IsKnown(partial, r, vec) && DimsOf(partial, r, vec) == DimsOf(partial, buf, vec) + [size]
      && DataType(r) == DataType(buf) && Tag(r) == Tag(buf)
  {
    var r := Put32(buf, 4 * Rank(buf), Stored(size, UNKNOWN_REP32))[14 := Rank(buf) + 1];
    assert forall d | 0 <= d < Rank(buf) :: Get32(r, 4 * d) == Get32(buf, 4 * d);
    assert Get32(r, 4 * Rank(buf)) == Stored(size, UNKNOWN_REP32);
  }

  lemma Filled16(partial: bool, buf: Buffer, vec: Dims, vals: Dims)
    requires Tag(buf) == REP16 && Rank(buf) == |vals| <= 6
    requires forall i | 0 <= i < |vals| :: IsSize(partial, vals[i]) && vals[i] < MAX_REP16
    requires forall i | 0 <= i < |vals| :: Get16(buf, 2 * i) == Stored(vals[i], UNKNOWN_REP16)
    ensures IsKnown(partial, buf, vec) && DimsOf(partial, buf, vec) == vals
  {
    forall i | 0 <= i < |vals| ensures IsStored(partial, Get16(buf, 2 * i), MAX_REP16, UNKNOWN_REP16) {
      assert IsSize(partial, vals[i]);
    }
  }

  lemma Filled32(partial: bool, buf: Buffer, vec: Dims, vals: Dims)
    requires Tag(buf) == REP32 && Rank(buf) == |vals| <= 3
    requires forall i | 0 <= i < |vals| :: IsSize(partial, vals[i]) && vals[i] < MAX_REP32
    requires forall i | 0 <= i < |vals| :: Get32(buf, 4 * i) == Stored(vals[i], UNKNOWN_REP32)
    ensures IsKnown(partial, buf, vec) && DimsOf(partial, buf, vec) == vals
  {
    forall i | 0 <= i < |vals| ensures IsStored(partial, Get32(buf, 4 * i), MAX_REP32, UNKNOWN_REP32) {
      assert IsSize(partial, vals[i]);
    }
  }

  // ---------------------------------------------------------------- sizes added one by one

  /** The tag of a shape to which these sizes were added one by one. */
  function TagFor(sizes: Dims): byte {
    if |sizes| <= 6 && (forall i | 0 <= i < |sizes| :: sizes[i] < MAX_REP16) then REP16 else WideTag(sizes)
  }

  /** The tag after a change of the representation. */
  function WideTag(sizes: Dims): byte {
    if |sizes| <= 3 && (forall i | 0 <= i < |sizes| :: sizes[i] < MAX_REP32) then REP32 else REP_OUT_OF_LINE
  }

  function NextTag(tag: byte, dims: Dims, size: int): byte {
    if tag == REP16 && |dims| < 6 && size < MAX_REP16 then REP16
    else if tag == REP32 && |dims| < 3 && size < MAX_REP32 then REP32
    else if tag == REP_OUT_OF_LINE then REP_OUT_OF_LINE
    else WideTag(dims + [size])
  }

  lemma TagAfterNext(dims: Dims, size: int)
    ensures NextTag(TagFor(dims), dims, size) == TagFor(dims + [size])
  {
    var all := dims + [size];
    assert all[|dims|] == size && forall i | 0 <= i < |dims| :: all[i] == dims[i];
  }

  /** A negative size is stored as "unknown" in the 16 bytes, and as it is in an out-of-line vector. */
  function Kept(size: int, tag: byte): int {
    if size < 0 && tag != REP_OUT_OF_LINE then -1 else size
  }

  /** What a shape holds to which these sizes were added one by one. */
  function Held(sizes: Dims): (dims: Dims)
    ensures |dims| == |sizes|
  {
    seq(|sizes|, i requires 0 <= i < |sizes| => Kept(sizes[i], TagFor(sizes[..i + 1])))
  }

  lemma HeldNext(sizes: Dims, i: nat)
    requires i < |sizes|
    ensures Held(sizes[..i + 1]) == Held(sizes[..i]) + [Kept(sizes[i], TagFor(sizes[..i + 1]))]
    ensures TagFor(Held(sizes[..i]) + [sizes[i]]) == TagFor(sizes[..i + 1])
  {
    hide TagFor;
    forall j | 0 <= j < i ensures Held(sizes[..i + 1])[j] == Held(sizes[..i])[j] {
      assert sizes[..i + 1][..j + 1] == sizes[..i][..j + 1];
    }
    assert sizes[..i + 1][..i + 1] == sizes[..i + 1];
    SameTag(Held(sizes[..i]) + [sizes[i]], sizes[..i + 1]);
  }

  lemma HeldTag(sizes: Dims, n: nat)
    requires n <= |sizes|
    ensures TagFor(Held(sizes[..n])) == TagFor(sizes[..n])
  {
    hide TagFor;
    SameTag(Held(sizes[..n]), sizes[..n]);
  }

  /** Which negative number a size is does not matter for the tag. */
  lemma SameTag(x: Dims, y: Dims)
    requires |x| == |y| && forall i | 0 <= i < |x| :: x[i] == y[i] || (x[i] < 0 && y[i] < 0)
    ensures TagFor(x) == TagFor(y)
  {}

  /** Sizes of at least -1 are held as they are. */
  lemma HeldSizes(partial: bool, sizes: Dims)
    requires AreSizes(partial, sizes)
    ensures Held(sizes) == sizes
  {
    hide TagFor;
    forall i | 0 <= i < |sizes| ensures Held(sizes)[i] == sizes[i] {
      assert IsSize(partial, sizes[i]);
    }
  }

  lemma {:induction false} HeldElements(sizes: Dims)
    ensures Elements(Held(sizes)) == Elements(sizes) && (Fits(Held(sizes)) <==> Fits(sizes))
  {
    if sizes != [] {
      var n := |sizes| - 1;
      HeldElements(sizes[..n]);
      HeldNext(sizes, n);
      assert sizes[..n + 1] == sizes == sizes[..n] + [sizes[n]];
      hide TagFor;
      ElementsSnoc(sizes[..n], sizes[n]);
      ElementsSnoc(Held(sizes[..n]), Kept(sizes[n], TagFor(sizes)));
    }
  }

  /** The sizes up to i were still inside the 16 bytes: at most six below 65534, or three below 2^32 - 2. */
  predicate WasInline(sizes: Dims, i: nat)
    requires i < |sizes|
  {
    || (i < 6 && forall j | 0 <= j <= i :: sizes[j] < 65534)
    || (i < 3 && forall j | 0 <= j <= i :: sizes[j] < 4294967294)
  }

  /** What a shape holds: every size as it was given, except that a negative one that was added while the sizes were
      inside the 16 bytes is -1. */
  lemma HeldMeans(sizes: Dims, i: nat)
    requires i < |sizes|
    ensures Held(sizes)[i] == if sizes[i] < 0 && WasInline(sizes, i) then -1 else sizes[i]
  {
    var front := sizes[..i + 1];
    assert forall j | 0 <= j <= i :: front[j] == sizes[j];
    assert TagFor(front) != REP_OUT_OF_LINE <==> WasInline(sizes, i);
  }

  // ---------------------------------------------------------------- one dimension replaced

  lemma Set16(partial: bool, buf: Buffer, vec: Dims, d: nat, size: int)
    requires IsKnown(partial, buf, vec) && Tag(buf) == REP16 && d < Rank(buf) && 0 <= size < MAX_REP16
    ensures var r := Put16(buf, 2 * d, size);
      IsKnown(partial, r, vec) && DimsOf(partial, r, vec) == DimsOf(partial, buf, vec)[d := size]
      && DataType(r) == DataType(buf) && Tag(r) == Tag(buf)
  {
    var r := Put16(buf, 2 * d, size);
    assert forall e | 0 <= e < Rank(buf) && e != d :: Get16(r, 2 * e) == Get16(buf, 2 * e);
  }

  lemma Set32(partial: bool, buf: Buffer, vec: Dims, d: nat, size: int)
    requires IsKnown(partial, buf, vec) && Tag(buf) == REP32 && d < Rank(buf) && 0 <= size < MAX_REP32
    ensures var r := Put32(buf, 4 * d, size);
      IsKnown(partial, r, vec) && DimsOf(partial, r, vec) == DimsOf(partial, buf, vec)[d := size]
      && DataType(r) == DataType(buf) && Tag(r) == Tag(buf)
  {
    var r := Put32(buf, 4 * d, size);
    assert forall e | 0 <= e < Rank(buf) && e != d :: Get32(r, 4 * e) == Get32(buf, 4 * e);
  }
}
