/** Bytes in little-endian order, and a heap of blocks that are allocated and freed one by one. */
module Memory {
  import opened Basics

  type byte = b: int | 0 <= b < 256

  /** Outside the n bytes at `at`, the two buffers agree. */
  ghost predicate OnlyAt(b: seq<byte>, r: seq<byte>, at: nat, n: nat) {
    |r| == |b| && forall i | 0 <= i < |b| && !(at <= i < at + n) :: r[i] == b[i]
  }

  function Get16(b: seq<byte>, at: nat): (v: nat)
    requires at + 2 <= |b|
    ensures v < 0x1_0000
  {
    var low: int, high: int := b[at], b[at + 1];
    low + 0x100 * high
  }

  function Put16(b: seq<byte>, at: nat, v: nat): (r: seq<byte>)
    requires at + 2 <= |b| && v < 0x1_0000
    ensures OnlyAt(b, r, at, 2) && Get16(r, at) == v
  {
    b[at := v % 0x100][at + 1 := v / 0x100]
  }

  function Get32(b: seq<byte>, at: nat): (v: nat)
    requires at + 4 <= |b|
    ensures v < TWO_32
  {
    Get16(b, at) + 0x1_0000 * Get16(b, at + 2)
  }

  function Put32(b: seq<byte>, at: nat, v: nat): (r: seq<byte>)
    requires at + 4 <= |b| && v < TWO_32
    ensures OnlyAt(b, r, at, 4) && Get32(r, at) == v
  {
    Put16(Put16(b, at, v % 0x1_0000), at + 2, v / 0x1_0000)
  }

  function Get64(b: seq<byte>, at: nat): (v: nat)
    requires at + 8 <= |b|
    ensures v < TWO_64
  {
    Get32(b, at) + TWO_32 * Get32(b, at + 4)
  }

  function Put64(b: seq<byte>, at: nat, v: nat): (r: seq<byte>)
    requires at + 8 <= |b| && v < TWO_64
    ensures OnlyAt(b, r, at, 8) && Get64(r, at) == v
  {
    Put32(Put32(b, at, v % TWO_32), at + 4, v / TWO_32)
  }

  /** A field read elsewhere than where a buffer was written is unchanged. */
  lemma FieldsKept(b: seq<byte>, r: seq<byte>, at: nat, n: nat, field: nat)
    requires OnlyAt(b, r, at, n)
    ensures field + 2 <= |b| && (field + 2 <= at || at + n <= field) ==> Get16(r, field) == Get16(b, field)
    ensures field + 4 <= |b| && (field + 4 <= at || at + n <= field) ==> Get32(r, field) == Get32(b, field)
    ensures field + 8 <= |b| && (field + 8 <= at || at + n <= field) ==> Get64(r, field) == Get64(b, field)
  {}

  /** The cells before and after an operation of one owner: it may replace the cells that it owns, and every
      other cell is as before; what it owns newly was free. */
  ghost predicate OnlyOwn<T>(before: map<nat, T>, owned: set<nat>, after: map<nat, T>, owned': set<nat>) {
    && after.Keys == before.Keys - owned + owned'
    && (forall a | a in owned' && a !in owned :: a !in before)
    && (forall a | a in before && a !in owned :: a in after && after[a] == before[a])
  }

  lemma OwnNothing<T>(cells: map<nat, T>, owned: set<nat>)
    requires owned <= cells.Keys
    ensures OnlyOwn(cells, owned, cells, owned)
  {
    assert cells.Keys == cells.Keys - owned + owned;
  }

  lemma OwnOnly<T>(c0: map<nat, T>, o0: set<nat>, c1: map<nat, T>, o1: set<nat>, c2: map<nat, T>, o2: set<nat>)
    requires OnlyOwn(c0, o0, c1, o1) && OnlyOwn(c1, o1, c2, o2)
    ensures OnlyOwn(c0, o0, c2, o2)
  {}

  /** The free store: the blocks that are allocated now, by address. Addresses are non-zero and fit in 64 bits. */
  class Heap<T> {
    var cells: map<nat, T>

    constructor ()
      ensures cells == map[]
    {
      cells := map[];
    }

    /** Some address is free, so that an allocation succeeds. */
    ghost predicate HasRoom()
      reads this
    {
      exists p :: 0 < p < TWO_64 && p !in cells
    }

    method New(value: T) returns (p: nat)
      requires HasRoom()
      modifies this
      ensures 0 < p < TWO_64 && p !in old(cells)
      ensures cells == old(cells)[p := value]
    {
      p :| 0 < p < TWO_64 && p !in cells;
      cells := cells[p := value];
    }

    method Delete(p: nat)
      requires p in cells
      modifies this
      ensures cells == old(cells) - {p}
    {
      cells := cells - {p};
    }

    method Write(p: nat, value: T)
      requires p in cells
      modifies this
      ensures cells == old(cells)[p := value]
    {
      cells := cells[p := value];
    }
  }

  /** A block of memory with arbitrary contents, as malloc returns it. */
  method Uninitialized(n: nat) returns (block: seq<byte>)
    ensures |block| == n
  {
    block :| |block| == n by { assert |seq(n, _ => 0 as byte)| == n; }
  }

  /** malloc */
  method Allocate(heap: Heap<seq<byte>>, n: nat) returns (p: nat)
    requires heap.HasRoom()
    modifies heap
    ensures 0 < p < TWO_64 && p !in old(heap.cells) && p in heap.cells && |heap.cells[p]| == n
    ensures heap.cells == old(heap.cells)[p := heap.cells[p]]
  {
    var block := Uninitialized(n);
    p := heap.New(block);
  }

  /** realloc: the block stays or moves, and keeps the bytes that both sizes hold. */
  method Reallocate(heap: Heap<seq<byte>>, p: nat, n: nat) returns (q: nat)
    requires p in heap.cells && 0 < p < TWO_64
    modifies heap
    ensures 0 < q < TWO_64 && (q == p || q !in old(heap.cells)) && q in heap.cells && |heap.cells[q]| == n
    ensures var kept := if n < |old(heap.cells[p])| then n else |old(heap.cells[p])|;
      heap.cells[q][..kept] == old(heap.cells[p])[..kept]
    ensures heap.cells == (old(heap.cells) - {p})[q := heap.cells[q]]
  {
    var block := heap.cells[p];
    var rest := Uninitialized(n);
    heap.Delete(p);
    assert p !in heap.cells;
    q := heap.New(if n < |block| then block[..n] else block + rest[|block|..]);
  }
}
